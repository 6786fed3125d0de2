/**
 Concrete inputs of the command for which an accepted volume does not read back as meant: the
 options that lead to each of the counterexamples.
 */
module Inputs {
  import opened Machine
  import opened Fat
  import opened Wrappers
  import opened Layout
  import opened Agreement
  import opened Sizing
  import opened Economy
  import opened Limits
  import opened Sector
  import opened Selection
  import opened OptionChecks
  import opened Mkfs
  import opened Tables
  import opened ReadBack
  import Reader

  /** A disk of 512-byte sectors whose geometry is given in full; of the rest, only what other predicates say. */
  predicate Described(o: Options) {
    && o.offset == 0 && o.bootstrap.None? && o.oem.None? && o.floppy.None? && o.media.None?
    && (o.volumeLabel.Some? ==> OkLabel(o.volumeLabel.value))
    && o.blockSize == 0 && o.directoryEntries == 0 && o.fats == 0
    && o.bytesPerSector == 512 && o.heads == 255 && o.sectorsPerTrack == 63 && o.hiddenSectors == Some(0)
  }

  /** FAT type, size, sectors per cluster and sectors per FAT asked for. */
  predicate Asks(o: Options, fat: nat, size: nat, spc: nat, spf: nat) {
    && o.fatType as int == fat && o.size as int == size
    && o.sectorsPerCluster as int == spc && o.sectorsPerFat as int == spf
  }

  /** The block that such options make. */
  function Block(o: Options): Bpb {
    ZERO_BPB.(bytesPerSec := o.bytesPerSector, secPerClust := o.sectorsPerCluster, resSectors := o.reservedSectors,
              fats := 2, secPerTrack := o.sectorsPerTrack, heads := o.heads, hugeSectors := o.size,
              bigFatSecs := o.sectorsPerFat, fsInfo := o.infoSector, backup := o.backupSector)
  }

  /** The block as the geometry options leave it. */
  function Start(o: Options): Bpb {
    ZERO_BPB.(bytesPerSec := o.bytesPerSector, secPerTrack := o.sectorsPerTrack, heads := o.heads,
              hugeSectors := o.size)
  }

  lemma DescribedStart(o: Options, g: Geometry)
    requires Described(o) && o.size > 0
    ensures StartingBlock(o) == Ok(Start(o)) && Probed(o, g, Start(o)) == Ok(Start(o))
  {
  }

  lemma DescribedFat(o: Options)
    requires Described(o) && IsFat(o.fatType) && (o.infoSector != 0 || o.backupSector != 0 ==> o.fatType == 32)
    ensures RequestedFat(o) == Ok(o.fatType as int)
  {
  }

  lemma DescribedCluster(o: Options, b: Bpb)
    requires Described(o) && b.bytesPerSec > 0 && IsSpc(o.sectorsPerCluster)
    ensures RequestedCluster(o, b) == Ok(o.sectorsPerCluster as int)
  {
    SpcIsPower(o.sectorsPerCluster);
  }

  lemma DescribedBlock(o: Options, fat: nat)
    requires Described(o)
    ensures Merged(o, Start(o), fat, o.sectorsPerCluster) == Block(o)
  {
  }

  lemma DescribedRest(o: Options)
    requires Described(o)
    ensures BootSectors(o, Start(o).bytesPerSec) == Ok(1) && o.fats <= MAXNFT && IsBps(Start(o).bytesPerSec)
    ensures (o.volumeLabel.Some? ==> OkLabel(o.volumeLabel.value)) && o.media.None?
  {
  }

  lemma DescribedChecks(o: Options)
    requires Described(o) && IsFat(o.fatType) && IsSpc(o.sectorsPerCluster)
    requires o.infoSector != 0 || o.backupSector != 0 ==> o.fatType == 32
    ensures Checked(o, Start(o)) == Ok(Params(Block(o), o.fatType, 1))
  {
    DescribedRest(o);
    DescribedFat(o);
    DescribedCluster(o, Start(o));
    DescribedBlock(o, o.fatType);
    ChecksAgain(o, Start(o), o.fatType, o.sectorsPerCluster, 1, Block(o));
  }

  lemma DescribedJob(o: Options, g: Geometry)
    requires Described(o) && IsFat(o.fatType) && o.size > 0 && IsSpc(o.sectorsPerCluster)
    requires o.infoSector != 0 || o.backupSector != 0 ==> o.fatType == 32
    ensures ValidParams(Params(Block(o), o.fatType, 1))
    ensures Posed(o, g) == JobOf(o.align, Params(Block(o), o.fatType, 1))
  {
    DescribedStart(o, g);
    DescribedChecks(o);
    ConfiguredFrom(o, g, Start(o), Start(o), Params(Block(o), o.fatType, 1));
    PosedFrom(o, g, Params(Block(o), o.fatType, 1));
  }

  /** FAT12 with one sector per cluster and one per FAT, on 100000 sectors. */
  lemma GivenFatInput(o: Options, g: Geometry)
    requires Described(o) && !o.align && o.reservedSectors == o.infoSector == o.backupSector == 0
    requires Asks(o, 12, 100000, 1, 1)
    ensures Posed(o, g).Ok? && Fat12Job(Posed(o, g).value, 100000, 1, 1, false)
  {
    DescribedJob(o, g);
  }

  /** FAT12 with eight sectors per cluster on 40000 sectors, aligned. */
  lemma AlignedCutInput(o: Options, g: Geometry)
    requires Described(o) && o.align && o.reservedSectors == o.infoSector == o.backupSector == 0
    requires Asks(o, 12, 40000, 8, 0)
    ensures Posed(o, g).Ok? && Fat12Job(Posed(o, g).value, 40000, 8, 0, true)
  {
    DescribedJob(o, g);
  }

  /** A volume that begins so many bytes behind the start of a disk, and nothing else asked for. */
  predicate AllDefault(o: Options, offset: nat) {
    o.offset == offset && o.floppy.None? && NothingAsked(o)
  }

  /** A disk of so many sectors of 512 bytes. */
  predicate Disk(g: Geometry, total: nat) {
    g.secSize == 512 && g.sectorsPerTrack == 63 && g.heads == 255 && g.total as int == total && g.hidden == 0
  }

  /** So many sectors of a disk lie behind the offset. */
  predicate Behind(o: Options, g: Geometry, total: nat) {
    Disk(g, g.total) && total == Wrap32(g.total - o.offset / 512)
  }

  /** The block that probing a disk makes that has so many sectors behind the offset. */
  function Probing(total: nat): Bpb {
    ZERO_BPB.(bytesPerSec := 512, secPerClust := SuggestedCluster(total), secPerTrack := 63, heads := 255,
              hugeSectors := total)
  }

  lemma DiskJob(o: Options, g: Geometry, total: nat, p: Params)
    requires AllDefault(o, o.offset) && Behind(o, g, total)
    requires p == Params(Probing(total).(fats := 2), 0, 1)
    ensures ValidParams(p) && Posed(o, g) == JobOf(false, p)
  {
    DiskStart(o);
    DiskProbed(o, g, total);
    DiskChecked(o, Probing(total), total);
    ConfiguredFrom(o, g, ZERO_BPB, Probing(total), p);
    PosedFrom(o, g, p);
  }

  lemma DiskStart(o: Options)
    requires AllDefault(o, o.offset)
    ensures StartingBlock(o) == Ok(ZERO_BPB)
  {
  }

  lemma DiskProbed(o: Options, g: Geometry, total: nat)
    requires AllDefault(o, o.offset) && Behind(o, g, total)
    ensures Probed(o, g, ZERO_BPB) == Ok(Probing(total))
  {
  }

  lemma NoClusterAsked(o: Options, b: Bpb)
    requires AllDefault(o, o.offset) && b.bytesPerSec > 0
    ensures RequestedCluster(o, b) == Ok(b.secPerClust)
  {
  }

  lemma NoFatAsked(o: Options)
    requires AllDefault(o, o.offset)
    ensures RequestedFat(o) == Ok(0)
  {
  }

  lemma DiskMerged(o: Options, b: Bpb, total: nat)
    requires AllDefault(o, o.offset) && b == Probing(total)
    ensures Merged(o, b, 0, b.secPerClust) == b.(fats := 2)
  {
  }

  lemma DiskChecked(o: Options, b: Bpb, total: nat)
    requires AllDefault(o, o.offset) && b == Probing(total)
    ensures Checked(o, b) == Ok(Params(b.(fats := 2), 0, 1))
  {
    NoClusterAsked(o, b);
    NoFatAsked(o);
    DiskMerged(o, b, total);
    ChecksAgain(o, b, 0, b.secPerClust, 1, b.(fats := 2));
  }

  /** A disk of 375 sectors with every default. */
  lemma SmallDiskInput(o: Options, g: Geometry)
    requires AllDefault(o, 0) && Disk(g, 375)
    ensures Posed(o, g).Ok? && Fat12Job(Posed(o, g).value, 375, 1, 0, false)
  {
    var p := Params(Probing(375).(fats := 2), 0, 1);
    DiskJob(o, g, 375, p);
    SmallDiskIsFat12(p.bpb);
  }

  lemma SmallDiskIsFat12(b: Bpb)
    requires b == Probing(375).(fats := 2)
    ensures ValidBpb(b) && b.secPerClust == 1 && SelectFat(b, 1) == 12
  {
  }

  /** A disk of 2 GiB with every default is refused: its cluster size makes the automatic choice wrong. */
  lemma TwoGibInput(o: Options, g: Geometry)
    requires AllDefault(o, 0) && Disk(g, 4194304)
    ensures Posed(o, g).Ok? && Posed(o, g).value.fat == 32 && Solution(Posed(o, g).value).Err?
  {
    var p := Params(Probing(4194304).(fats := 2), 0, 1);
    DiskJob(o, g, 4194304, p);
    TwoGibRefused(p, ReserveSectors(32, 1, p.bpb.fsInfo, p.bpb.backup).value);
  }

  lemma TwoGibRefused(p: Params, r: Reserved)
    requires ValidParams(p) && p.fat == 0 && p.bss == 1 && IsTwoGib(p.bpb)
    requires ReserveSectors(32, 1, p.bpb.fsInfo, p.bpb.backup) == Ok(r)
    ensures JobOf(false, p).Ok? && JobOf(false, p).value.fat == 32 && Solution(JobOf(false, p).value).Err?
  {
    AutomaticFat32CanFail(p.bpb, r);
  }

  /** A disk of 64 MiB with every default becomes a FAT16 volume of the whole disk. */
  lemma MediumDiskInput(o: Options, g: Geometry)
    requires AllDefault(o, 0) && Disk(g, 131072)
    ensures Posed(o, g).Ok? && Posed(o, g).value.fat == 16
    ensures Solution(Posed(o, g).value).Ok? && Solution(Posed(o, g).value).value.bpb.hugeSectors == 131072
  {
    var p := Params(Probing(131072).(fats := 2), 0, 1);
    DiskJob(o, g, 131072, p);
    MediumDiskIsFat16(p.bpb);
    MediumDiskIsWhole(JobOf(false, p).value);
  }

  lemma MediumDiskIsFat16(b: Bpb)
    requires b == Probing(131072).(fats := 2)
    ensures ValidBpb(b) && b.secPerClust == 8 && SelectFat(b, 1) == 16
  {
  }

  lemma MediumDiskIsWhole(j: Job)
    requires j.Valid() && !j.align && j.fat == 16 && j.need == 1
    requires j.bpb == Probing(131072).(fats := 2)
    ensures Solution(j).Ok? && Solution(j).value.bpb.hugeSectors == 131072
  {
    AcceptedExactly(j);
    assert j.FatSectors(MinCls(16)) == 16;
    CutExactly(j, Solution(j).value);
  }

  /** An offset of 1 MiB on a disk of 512 KiB: the subtraction wraps, and the volume has nearly 2^32 sectors. */
  lemma OffsetBehindInput(o: Options, g: Geometry)
    requires AllDefault(o, 0x10_0000) && Disk(g, 1024)
    ensures Posed(o, g).Ok? && Posed(o, g).value.bpb.hugeSectors == 0xffff_fc00
    ensures Solution(Posed(o, g).value).Ok?
  {
    var p := Params(Probing(0xffff_fc00).(fats := 2), 0, 1);
    DiskJob(o, g, 0xffff_fc00, p);
    WrappedIsFat32(p.bpb);
    WrappedIsAccepted(JobOf(false, p).value);
  }

  lemma WrappedIsFat32(b: Bpb)
    requires b == Probing(0xffff_fc00).(fats := 2)
    ensures ValidBpb(b) && b.secPerClust == 64 && SelectFat(b, 1) == 32
  {
  }

  lemma WrappedIsAccepted(j: Job)
    requires j.Valid() && !j.align && j.fat == 32 && j.need == 3
    requires j.bpb.bytesPerSec == 512 && j.bpb.secPerClust == 64 && j.bpb.fats == 2
    requires j.bpb.resSectors == j.bpb.bigFatSecs == 0 && j.bpb.hugeSectors >= 0x1000_0000
    ensures Solution(j).Ok?
  {
    AcceptedExactly(j);
    assert j.FatSectors(MinCls(32)) == 512;
  }

  /** FAT32 with three reserved sectors and one sector per cluster on a million sectors. */
  lemma ThreeReservedInput(o: Options, g: Geometry)
    requires Described(o) && !o.align && o.reservedSectors == 3 && o.infoSector == o.backupSector == 0
    requires Asks(o, 32, 1000000, 1, 0)
    ensures Posed(o, g).Ok? && Solution(Posed(o, g).value).Ok?
    ensures var b := Solution(Posed(o, g).value).value.bpb; b.resSectors == 3 && b.fsInfo == 1 && b.backup == 2
  {
    DescribedJob(o, g);
    var j := Posed(o, g).value;
    ThreeReservedFits(j);
  }

  lemma ThreeReservedFits(j: Job)
    requires j.Valid() && !j.align && j.fat == 32 && j.need == 3
    requires j.bpb.bytesPerSec == 512 && j.bpb.resSectors == 3 && j.bpb.secPerClust == 1 && j.bpb.fats == 2
    requires j.bpb.bigFatSecs == 0 && j.bpb.hugeSectors == 1000000
    ensures Solution(j).Ok?
    ensures var b := Solution(j).value.bpb;
            b.resSectors == 3 && b.fsInfo == j.bpb.fsInfo && b.backup == j.bpb.backup
  {
    assert j.FatSectors(0xfff5) == 512;
    AcceptedExactly(j);
    UnalignedReserve(j, Solution(j).value);
    PlanBounds(j, Solution(j).value);
  }

  /**
   Aligned FAT32 on the largest disk, with the backup sector near the end of 16 bits: the padding
   takes the reserved area to 65536 sectors.
   */
  lemma ReservedOverflowInput(o: Options, g: Geometry)
    requires Described(o) && o.align && o.reservedSectors == o.infoSector == 0 && o.backupSector == 0xfffe
    requires Asks(o, 32, 0xffff_ffff, 8, 0x20_0000)
    ensures Posed(o, g).Ok? && Overflowing(Posed(o, g).value)
  {
    DescribedJob(o, g);
  }

  predicate Overflowing(j: Job) {
    && j.Valid() && j.align && j.fat == 32 && j.need == 0xffff
    && j.bpb.bytesPerSec == 512 && j.bpb.resSectors == 0 && j.bpb.secPerClust == 8 && j.bpb.fats == 2
    && j.bpb.bigFatSecs == 0x20_0000 && j.bpb.hugeSectors == 0xffff_ffff
  }

  lemma OverflowingPass(j: Job)
    requires Overflowing(j)
    ensures FinalPass(j).Ok?
    ensures var p := FinalPass(j).value;
            && p.res == 0x1_0000 && p.spc == 8 && p.spf == 0x20_0000
            && p.start == 0x41_0000 && SeenStart(j, p) == 0x40_0000
  {
    assert j.RootSectors() == 0 && j.Reserved(0) == 0xffff && j.Reserved(1) == 0x1_0000;
    assert j.FatArea(0x20_0000) == 0x40_0000;
    assert OnePass(j, 0, 0x20_0000).Ok? && OnePass(j, 0, 0x20_0000).value.skew == 7;
  }

  lemma OverflowAccepted(j: Job, p: Pass)
    requires Overflowing(j) && FinalPass(j) == Ok(p)
    requires p.res == 0x1_0000 && p.spc == 8 && p.spf == 0x20_0000 && p.start == 0x41_0000
    ensures Solution(j).Ok? && Solution(j).value.bpb.resSectors == 0x1_0000
  {
    assert j.Capacity(0x20_0000) == 0xfff_fffe;
  }

  /**
   It is accepted, the header says that there are no reserved sectors at all, and the clusters a
   reader then counts are more than the type allows.
   */
  lemma ReservedOverflowMisleads(j: Job, plan: Plan, v: Volume, img: Bytes)
    requires Overflowing(j)
    ensures Solution(j).Ok? && Solution(j).value.bpb.resSectors == 0x1_0000
    ensures Written(j, plan, v, img) ==>
              && |img| >= 512
              && var b := Reader.Parse(img);
                 b.bytesPerSec > 0 && b.secPerClust > 0 && b.resSectors == 0 && !CountAllowed(b, 32)
  {
    OverflowingPass(j);
    OverflowAccepted(j, FinalPass(j).value);
    if Written(j, plan, v, img) {
      HeaderReadsBack(j, plan, v, img);
      TypeReadsBackExactly(j, plan, FinalPass(j).value, v, img);
    }
  }

  /**
   FAT32 with info sector 1500, backup sector 1700 and FATs that end right where the second FSInfo
   sector goes: it takes the sector of the root directory.
   */
  lemma RootHitInput(o: Options, g: Geometry)
    requires Described(o) && !o.align && o.reservedSectors == 2000 && o.infoSector == 1500 && o.backupSector == 1700
    requires Asks(o, 32, 80000, 1, 600)
    ensures Posed(o, g).Ok? && RootHit(Posed(o, g).value)
  {
    DescribedJob(o, g);
  }

  predicate RootHit(j: Job) {
    && j.Valid() && !j.align && j.fat == 32 && j.need == 1701
    && j.bpb.bytesPerSec == 512 && j.bpb.resSectors == 2000 && j.bpb.secPerClust == 1 && j.bpb.fats == 2
    && j.bpb.bigFatSecs == 600 && j.bpb.hugeSectors == 80000 && j.bpb.fsInfo == 1500 && j.bpb.backup == 1700
  }

  /** The volume is accepted, and neither its root directory nor its label is as meant. */
  lemma RootHitLosesTheRoot(j: Job, plan: Plan, v: Volume, img: Bytes)
    requires RootHit(j)
    ensures Solution(j).Ok?
    ensures Written(j, plan, v, img) ==>
              && v.Dir() == v.bpb.backup + v.bpb.fsInfo < v.Sectors()
              && !ShowsRoot(img, v, v.Dir())
              && (v.volumeLabel.Some? ==>
                    && (v.Dir() + 1) * v.bpb.bytesPerSec <= |img|
                    && Reader.SectorAt(img, v.bpb.bytesPerSec, v.Dir()) != LabelSector(v))
  {
    RootHitAccepted(j);
    if Written(j, plan, v, img) {
      RootHitPlace(j, plan, v);
      ImageShows(v);
      assert ShowsSector(img, v, v.Dir());
      RootSector(v, v.Dir());
      if v.volumeLabel.Some? {
        LabelReadsBackExactly(v, img);
      }
    }
  }

  lemma RootHitAccepted(j: Job)
    requires RootHit(j)
    ensures Solution(j).Ok?
    ensures var b := Solution(j).value.bpb; b.resSectors == 2000 && b.bigFatSecs == 600 && b.secPerClust == 1
  {
    assert j.RootSectors() == 0 && j.FatArea(600) == 1200 && j.Capacity(600) == 76798;
  }

  lemma RootHitPlace(j: Job, plan: Plan, v: Volume)
    requires RootHit(j) && Solution(j) == Ok(plan) && Describes(plan, v) && v.Valid()
    ensures v.Dir() == 3200 == v.bpb.backup + v.bpb.fsInfo && v.Sectors() == 3201 && HasInfoCopy(v)
  {
    RootHitAccepted(j);
    PlanBounds(j, plan);
    SealedBlock(j, plan);
  }
}
