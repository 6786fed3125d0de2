/** A reader that sees only the written bytes recovers the volume that was laid out. */
module ReadBack {
  import opened Machine
  import opened Fat
  import opened Wrappers
  import opened Layout
  import opened Agreement
  import opened Sizing
  import opened Outcomes
  import opened Sector
  import opened RoundTrip
  import opened Tables
  import opened Mkfs
  import opened OptionChecks
  import Reader

  /** An accepted layout, and the image that was written for it. */
  predicate Written(j: Job, plan: Plan, v: Volume, img: Bytes) {
    && j.Valid() && Settled(j) && Solution(j) == Ok(plan)
    && Describes(plan, v) && v.Valid() && img == Image(v, v.Sectors())
  }

  lemma ParseFirst(a: Bytes, b: Bytes)
    requires |a| >= 512 && |b| >= 512 && a[..512] == b[..512]
    ensures Reader.Parse(a) == Reader.Parse(b)
  {
    assert forall k :: 0 <= k < 512 ==> a[k] == a[..512][k] == b[..512][k] == b[k];
  }

  lemma FirstSector(v: Volume, img: Bytes)
    requires v.Valid() && ShowsSector(img, v, 0)
    ensures |img| >= 512 && Reader.Parse(img) == Reader.Parse(BootSector(v))
  {
    assert img[..v.bpb.bytesPerSec] == BootSector(v);
    assert img[..512] == BootSector(v)[..512];
    ParseFirst(img, BootSector(v));
  }

  lemma SignatureShown(v: Volume, img: Bytes)
    requires v.Valid() && ShowsSector(img, v, 0)
    ensures |img| >= 512 && img[510..512] == [0x55, 0xaa]
  {
    assert img[..v.bpb.bytesPerSec] == BootSector(v);
    BootLayout(v);
    assert img[510] == BootSector(v)[510] == BootSector(v)[510..512][0];
    assert img[511] == BootSector(v)[511] == BootSector(v)[510..512][1];
  }

  /** The first sector of the image gives back the whole parameter block, if its reserved area fits 16 bits. */
  lemma HeaderReadsBack(j: Job, plan: Plan, v: Volume, img: Bytes)
    requires Written(j, plan, v, img)
    ensures |img| >= 512 && Reader.Parse(img) == Stored(Seal(plan))
    ensures Reader.Parse(img) == Seal(plan) <==> plan.bpb.resSectors <= MAXU16
    ensures !j.align ==> Reader.Parse(img) == Seal(plan)
    ensures img[510..512] == [0x55, 0xaa]
  {
    PlanBounds(j, plan);
    ImageShows(v);
    assert ShowsSector(img, v, 0);
    FirstSector(v, img);
    BootRoundTrip(v);
    SignatureShown(v, img);
  }

  /**
   The exact condition for the written bytes to have a cluster count that suits the FAT type;
   when they do, the reader's rule gives that type.
   */
  lemma TypeReadsBackExactly(j: Job, plan: Plan, p: Pass, v: Volume, img: Bytes)
    requires Written(j, plan, v, img) && FinalPass(j) == Ok(p)
    ensures |img| >= 512
    ensures var b := Reader.Parse(img);
            && b.bytesPerSec > 0 && b.secPerClust > 0
            && (CountAllowed(b, j.fat) <==>
                  || j.bpb.hugeSectors - SeenStart(j, p) < (MaxCls(j.fat) + 1) * p.spc
                  || (p.start == SeenStart(j, p) && Cap(j, p) > MaxCls(j.fat)))
            && (CountAllowed(b, j.fat) ==> Reader.FatType(b) == j.fat)
  {
    HeaderReadsBack(j, plan, v, img);
    TypeAgreement(j, plan, p);
  }

  /** With a computed FAT size and alignment off it always has. */
  lemma TypeReadsBack(j: Job, plan: Plan, v: Volume, img: Bytes)
    requires Written(j, plan, v, img) && j.bpb.bigFatSecs == 0 && !j.align
    ensures |img| >= 512
    ensures var b := Reader.Parse(img);
            b.bytesPerSec > 0 && b.secPerClust > 0 && Reader.FatType(b) == j.fat && CountAllowed(b, j.fat)
  {
    HeaderReadsBack(j, plan, v, img);
    ComputedTypeAgreement(j, plan);
  }

  /**
   What is written is everything up to the end of the root directory, where the reader
   finds it: behind the fixed area on FAT12 and FAT16, cluster 2 on FAT32. All of it lies
   inside the final total.
   */
  lemma ExtentReadsBack(j: Job, plan: Plan, v: Volume, img: Bytes)
    requires Written(j, plan, v, img) && plan.bpb.resSectors <= MAXU16
    ensures |img| >= 512
    ensures var b := Reader.Parse(img);
            && b.bytesPerSec > 0
            && |img| == v.Sectors() * b.bytesPerSec
            && v.Sectors() == (if j.fat == 32 then Reader.ClusterSector(b, 2) + b.secPerClust else Reader.FirstData(b))
            && v.Dir() + Reader.RootDirSectors(b) == Reader.FirstData(b)
            && v.Sectors() <= Reader.Total(b)
            && (j.fat == 32 ==> b.rootClust == 2)
  {
    HeaderReadsBack(j, plan, v, img);
    PlanBounds(j, plan);
    SealedFields(j, plan);
    SectorsFit(j, plan, 2);
  }

  /**
   Every FAT on the disk decodes to the fresh entries, for every cluster that was laid out, if
   the second FSInfo copy stays out of the FAT area.
   */
  lemma FatReadsBack(j: Job, plan: Plan, v: Volume, img: Bytes, i: nat, n: nat)
    requires Written(j, plan, v, img) && !InfoHitsFats(v)
    requires i < v.bpb.fats && n <= plan.clusters + 1
    ensures Reader.HoldsFats(img, v.bpb)
    ensures (n + 1) * (j.fat / BPN) <= |Reader.FatCopy(img, v.bpb, i)| * NPB
    ensures Reader.Entry(j.fat, Reader.FatCopy(img, v.bpb, i), n) == FreshEntry(v, n)
  {
    AcceptedEntry(j, plan, v, n);
    ImageShows(v);
    FreshCopyEntry(img, v, i, n);
  }

  /** The entry of a laid-out cluster lies inside a fresh table. */
  lemma AcceptedEntry(j: Job, plan: Plan, v: Volume, n: nat)
    requires j.Valid() && Solution(j) == Ok(plan) && Describes(plan, v) && v.Valid() && n <= plan.clusters + 1
    ensures v.fat == j.fat && (n + 1) * (v.fat / BPN) <= |FreshTable(v)| * NPB
  {
    SealKeepsSize(j, plan, v);
    EntriesFit(j, plan, n);
    FatNibbles(v, j.E(), j.N(), n);
  }

  lemma SealKeepsSize(j: Job, plan: Plan, v: Volume)
    requires j.Valid() && Solution(j) == Ok(plan) && Describes(plan, v)
    ensures v.fat == j.fat && v.bpb.bytesPerSec == j.bpb.bytesPerSec
  {
    PlanBounds(j, plan);
  }

  lemma FreshCopyEntry(img: Bytes, v: Volume, i: nat, n: nat)
    requires v.Valid() && Shows(img, v) && !InfoHitsFats(v)
    requires i < v.bpb.fats && (n + 1) * (v.fat / BPN) <= |FreshTable(v)| * NPB
    ensures Reader.HoldsFats(img, v.bpb)
    ensures (n + 1) * (v.fat / BPN) <= |Reader.FatCopy(img, v.bpb, i)| * NPB
    ensures Reader.Entry(v.fat, Reader.FatCopy(img, v.bpb, i), n) == FreshEntry(v, n)
  {
    FatsAreFreshExactly(img, v);
    FreshEntries(v, n);
  }

  lemma FatNibbles(v: Volume, e: nat, nibbles: nat, n: nat)
    requires v.Valid() && e == v.fat / BPN && nibbles == v.bpb.bytesPerSec * NPB
    requires (n + 1) * e <= Reader.FatSize(v.bpb) * nibbles
    ensures (n + 1) * (v.fat / BPN) <= |FreshTable(v)| * NPB
  {
    assert Reader.FatSize(v.bpb) * (v.bpb.bytesPerSec * NPB) == |FreshTable(v)| * NPB;
  }

  /** The backup boot sector is the boot sector: a reader that has lost the one finds the block in the other. */
  lemma BackupReadsBack(v: Volume, img: Bytes)
    requires v.Valid() && Shows(img, v) && v.fat == 32 && v.bpb.backup != MAXU16
    ensures |img| >= 512 && ShowsSector(img, v, v.bpb.backup) && ShowsSector(img, v, 0)
    ensures Reader.SectorAt(img, v.bpb.bytesPerSec, v.bpb.backup) == Reader.SectorAt(img, v.bpb.bytesPerSec, 0)
    ensures Reader.Parse(Reader.SectorAt(img, v.bpb.bytesPerSec, v.bpb.backup)) == Reader.Parse(img)
  {
    ReservedInside(v, v.bpb.backup);
    assert ShowsSector(img, v, v.bpb.backup) && ShowsSector(img, v, 0);
    FirstSector(v, img);
  }

  /** A reserved sector is written. */
  lemma ReservedInside(v: Volume, lsn: nat)
    requires v.Valid() && lsn < v.bpb.resSectors
    ensures 0 < v.Sectors() && lsn < v.Sectors()
  {
    MulMono(0, v.bpb.fats, Reader.FatSize(v.bpb));
  }

  /**
   The info sector is where the header says, with the signatures of the FSInfo structure
   (section 5 of the Microsoft FAT Specification) and free counts unknown.
   */
  lemma InfoReadsBack(v: Volume, img: Bytes)
    requires v.Valid() && Shows(img, v) && v.fat == 32 && v.bpb.fsInfo != MAXU16
    ensures ShowsSector(img, v, v.bpb.fsInfo)
    ensures var s := Reader.SectorAt(img, v.bpb.bytesPerSec, v.bpb.fsInfo);
            && Reader.Read4(s, 0) == 0x41615252 && Reader.Read4(s, 484) == 0x61417272
            && Reader.Read4(s, 488) == Reader.Read4(s, 492) == 0xffff_ffff && Reader.Read2(s, 510) == 0xaa55
  {
    ReservedInside(v, v.bpb.fsInfo);
    InfoFields(v.bpb.bytesPerSec);
  }

  lemma InfoFields(bps: nat)
    requires IsBps(bps)
    ensures var s := InfoSector(bps);
            && Reader.Read4(s, 0) == 0x41615252 && Reader.Read4(s, 484) == 0x61417272
            && Reader.Read4(s, 488) == Reader.Read4(s, 492) == 0xffff_ffff && Reader.Read2(s, 510) == 0xaa55
  {
    var s := InfoSector(bps);
    ReadsLe4(s, 0, 0x41615252);
    ReadsLe4(s, 484, 0x61417272);
    ReadsLe4(s, 488, 0xffff_ffff);
    ReadsLe4(s, 492, 0xffff_ffff);
  }

  /** The second info sector, as far behind the backup as the first is behind the start, is the same as the first. */
  lemma InfoCopyReadsBack(v: Volume, img: Bytes)
    requires v.Valid() && Shows(img, v) && HasInfoCopy(v) && v.bpb.backup + v.bpb.fsInfo < v.Sectors()
    ensures ShowsSector(img, v, v.bpb.fsInfo) && ShowsSector(img, v, v.bpb.backup + v.bpb.fsInfo)
    ensures Reader.SectorAt(img, v.bpb.bytesPerSec, v.bpb.backup + v.bpb.fsInfo) ==
            Reader.SectorAt(img, v.bpb.bytesPerSec, v.bpb.fsInfo)
  {
    ReservedInside(v, v.bpb.fsInfo);
  }

  /** Every other reserved sector is empty. */
  lemma ReservedReadsBack(v: Volume, img: Bytes, lsn: nat)
    requires v.Valid() && Shows(img, v) && 0 < lsn < v.bpb.resSectors
    requires v.fat == 32 && v.bpb.backup != MAXU16 ==> lsn != v.bpb.backup
    requires v.fat == 32 && v.bpb.fsInfo != MAXU16 ==> lsn != v.bpb.fsInfo
    requires HasInfoCopy(v) ==> lsn != v.bpb.backup + v.bpb.fsInfo
    ensures ShowsSector(img, v, lsn)
    ensures Reader.SectorAt(img, v.bpb.bytesPerSec, lsn) == Zeros(v.bpb.bytesPerSec)
  {
    ReservedInside(v, lsn);
    InFrontOfFats(v, lsn);
    assert ShowsSector(img, v, lsn);
  }

  lemma InFrontOfFats(v: Volume, lsn: nat)
    requires lsn < v.bpb.resSectors
    ensures lsn < v.Dir()
  {
    MulMono(0, v.bpb.fats, Reader.FatSize(v.bpb));
  }

  /** The FSInfo copy falls into the root directory. */
  predicate InfoHitsRoot(v: Volume) {
    HasInfoCopy(v) && v.Dir() <= v.bpb.backup + v.bpb.fsInfo < v.Sectors()
  }

  /** The root directory that was meant: the label, if there is one, and nothing else. */
  function FreshRoot(v: Volume, lsn: nat): Bytes
    requires v.Valid()
  {
    if lsn == v.Dir() && v.volumeLabel.Some? then LabelSector(v) else Zeros(v.bpb.bytesPerSec)
  }

  predicate ShowsRoot(img: Bytes, v: Volume, lsn: nat)
    requires v.Valid()
  {
    && (lsn + 1) * v.bpb.bytesPerSec <= |img|
    && Reader.SectorAt(img, v.bpb.bytesPerSec, lsn) == FreshRoot(v, lsn)
  }

  /** The root directory reads as it was meant exactly when the FSInfo copy stays out of it. */
  lemma RootReadsBack(v: Volume, img: Bytes)
    requires v.Valid() && Shows(img, v)
    ensures (forall lsn :: v.Dir() <= lsn < v.Sectors() ==> ShowsRoot(img, v, lsn)) <==> !InfoHitsRoot(v)
  {
    forall lsn | v.Dir() <= lsn < v.Sectors()
      ensures ShowsRoot(img, v, lsn) <==> !(HasInfoCopy(v) && lsn == v.bpb.backup + v.bpb.fsInfo)
    {
      assert ShowsSector(img, v, lsn);
      RootSector(v, lsn);
    }
    if InfoHitsRoot(v) {
      assert !ShowsRoot(img, v, v.bpb.backup + v.bpb.fsInfo);
    }
  }

  /** The volume label stands in the written image exactly when its sector is not the one the FSInfo copy takes. */
  lemma LabelReadsBackExactly(v: Volume, img: Bytes)
    requires v.Valid() && Shows(img, v) && v.volumeLabel.Some? && v.Dir() < v.Sectors()
    ensures (v.Dir() + 1) * v.bpb.bytesPerSec <= |img|
    ensures var s := Reader.SectorAt(img, v.bpb.bytesPerSec, v.Dir());
            && (s == LabelSector(v) <==> !(HasInfoCopy(v) && v.Dir() == v.bpb.backup + v.bpb.fsInfo))
            && (s == LabelSector(v) ==>
                  && s[..11] == LabelBytes(v.volumeLabel.value) && s[11] == 0x28
                  && Reader.Read2(s, 22) == v.time && Reader.Read2(s, 24) == v.date
                  && s[26..] == Zeros(v.bpb.bytesPerSec - 26))
  {
    assert ShowsSector(img, v, v.Dir());
    RootSector(v, v.Dir());
    LabelReadsBack(v);
  }

  lemma RootSector(v: Volume, lsn: nat)
    requires v.Valid() && v.Dir() <= lsn < v.Sectors()
    ensures Contents(v, lsn) == FreshRoot(v, lsn) <==> !(HasInfoCopy(v) && lsn == v.bpb.backup + v.bpb.fsInfo)
  {
    MulMono(1, v.bpb.fats, Reader.FatSize(v.bpb));
    assert InfoSector(v.bpb.bytesPerSec)[484] == 0x72;
    assert FreshRoot(v, lsn)[484] == 0;
  }

  /** With the info, backup and reserved sectors left to their defaults, the FSInfo copy stays in the reserved area. */
  lemma DefaultsAreClean(j: Job, plan: Plan, v: Volume)
    requires j.Valid() && !j.align && Solution(j) == Ok(plan) && Describes(plan, v)
    requires j.bpb.resSectors == 0 && (j.fat == 32 ==> j.bpb.fsInfo == 1 && j.bpb.backup == 2)
    ensures v.fat == 32 ==> v.bpb.backup + v.bpb.fsInfo < v.bpb.resSectors
    ensures !InfoHitsFats(v) && !InfoHitsRoot(v)
  {
    DefaultReserve(j);
    UnalignedReserve(j, plan);
    SealKeepsSectors(j, plan, v);
    ReservedTail(v);
  }

  lemma DefaultReserve(j: Job)
    requires j.Valid() && j.bpb.resSectors == 0
    ensures j.fat == 32 ==> j.Reserved(0) >= 4
  {
  }

  lemma SealKeepsSectors(j: Job, plan: Plan, v: Volume)
    requires j.Valid() && Solution(j) == Ok(plan) && Describes(plan, v)
    ensures v.fat == j.fat && v.bpb.resSectors == plan.bpb.resSectors
    ensures v.bpb.fsInfo == j.bpb.fsInfo && v.bpb.backup == j.bpb.backup
  {
    PlanBounds(j, plan);
  }

  /** An info copy inside the reserved area hits neither the FATs nor the root directory. */
  lemma ReservedTail(v: Volume)
    ensures v.bpb.backup + v.bpb.fsInfo < v.bpb.resSectors ==> !InfoHitsFats(v) && !InfoHitsRoot(v)
  {
    MulMono(0, v.bpb.fats, Reader.FatSize(v.bpb));
  }

  /** With three reserved sectors the FSInfo copy overwrites the start of the first FAT. */
  lemma ThreeReservedSectorsLoseTheFat(v: Volume, img: Bytes)
    requires v.Valid() && Shows(img, v) && v.fat == 32
    requires v.bpb.resSectors == 3 && v.bpb.fsInfo == 1 && v.bpb.backup == 2
    ensures Reader.HoldsFats(img, v.bpb) && Reader.FatCopy(img, v.bpb, 0) != FreshTable(v)
  {
    HitFatIsNotFresh(img, v, 0, 0);
  }

  /** Those are the sectors a volume without such options gets, whatever its sector size. */
  lemma DefaultSectors(o: Options, g: Geometry, j: Job)
    requires Posed(o, g) == Ok(j)
    requires o.bootstrap.None? && o.floppy.None? && o.infoSector == o.backupSector == o.reservedSectors == 0
    ensures j.bpb.resSectors == 0 && (j.fat == 32 ==> j.bpb.fsInfo == 1 && j.bpb.backup == 2)
  {
    var p := Configure(o, g).value;
    PosedFrom(o, g, p);
    DefaultsAreOpen(o, g, p);
    OptionsAreHonoured(o, g, p);
    JobParts(o.align, p, j);
  }

  /** The FAT size is computed when neither a size nor a floppy format is asked for. */
  lemma FatSizeIsComputed(o: Options, g: Geometry, j: Job)
    requires Posed(o, g) == Ok(j) && o.sectorsPerFat == 0 && o.floppy.None?
    ensures j.bpb.bigFatSecs == 0
  {
    var p := Configure(o, g).value;
    PosedFrom(o, g, p);
    DefaultsAreOpen(o, g, p);
    OptionsAreHonoured(o, g, p);
    JobParts(o.align, p, j);
  }

  /** What Format writes is Written. */
  lemma FormattedIsWritten(o: Options, g: Geometry, j: Job, plan: Plan, v: Volume, img: Bytes)
    requires Posed(o, g) == Ok(j) && Solution(j) == Ok(plan) && !o.align
    requires Describes(plan, v) && v.Valid() && img == Image(v, v.Sectors())
    ensures Written(j, plan, v, img)
  {
    PosedIsSettled(o, g, j);
  }

  /**
   The whole promise, from options to bytes. For every combination of options and geometry
   that is accepted with alignment off and the FAT size computed, a reader of the image alone
   recovers the parameter block, finds the FAT type that was formatted and an allowed number
   of clusters, and finds the image to end with the root directory, inside the volume. A
   bootstrap file counts here for the sectors it reserves; its contents are not in the image.
   */
  lemma VolumeReadsBack(o: Options, g: Geometry, j: Job, plan: Plan, v: Volume, img: Bytes)
    requires Posed(o, g) == Ok(j) && Solution(j) == Ok(plan)
    requires !o.align && o.sectorsPerFat == 0 && o.floppy.None?
    requires Describes(plan, v) && v.Valid() && img == Image(v, v.Sectors())
    ensures |img| >= 512
    ensures var b := Reader.Parse(img);
            && b == v.bpb && b.bytesPerSec > 0 && b.secPerClust > 0
            && Reader.FatType(b) == plan.fat && CountAllowed(b, plan.fat)
            && |img| == v.Sectors() * b.bytesPerSec
            && v.Sectors() == (if plan.fat == 32 then Reader.ClusterSector(b, 2) + b.secPerClust
                               else Reader.FirstData(b))
            && v.Sectors() <= Reader.Total(b)
  {
    FormattedIsWritten(o, g, j, plan, v, img);
    FatSizeIsComputed(o, g, j);
    PlanBounds(j, plan);
    HeaderReadsBack(j, plan, v, img);
    TypeReadsBack(j, plan, v, img);
    ExtentReadsBack(j, plan, v, img);
  }

  /** FAT i decodes to the fresh entry of cluster n. */
  predicate ShowsEntry(img: Bytes, v: Volume, i: nat, n: nat)
    requires v.Valid()
  {
    && i < v.bpb.fats && Reader.HoldsFats(img, v.bpb)
    && (n + 1) * (v.fat / BPN) <= |Reader.FatCopy(img, v.bpb, i)| * NPB
    && Reader.Entry(v.fat, Reader.FatCopy(img, v.bpb, i), n) == FreshEntry(v, n)
  }

  /**
   With the sectors left to their defaults nothing gets in the way of anything. For every such
   combination of options and geometry that is accepted with alignment off, the header gives back
   the parameter block, every FAT decodes to the fresh entry of every cluster that was laid out,
   and the root directory holds what it is meant to.
   */
  lemma DefaultVolumeReadsBack(o: Options, g: Geometry, j: Job, plan: Plan, v: Volume, img: Bytes)
    requires Posed(o, g) == Ok(j) && Solution(j) == Ok(plan) && !o.align
    requires o.bootstrap.None? && o.floppy.None? && o.infoSector == o.backupSector == o.reservedSectors == 0
    requires Describes(plan, v) && v.Valid() && img == Image(v, v.Sectors())
    ensures |img| >= 512 && Reader.Parse(img) == v.bpb
    ensures forall i: nat, n: nat :: i < v.bpb.fats && n <= plan.clusters + 1 ==> ShowsEntry(img, v, i, n)
    ensures forall lsn :: v.Dir() <= lsn < v.Sectors() ==> ShowsRoot(img, v, lsn)
  {
    FormattedIsWritten(o, g, j, plan, v, img);
    DefaultSectors(o, g, j);
    DefaultsAreClean(j, plan, v);
    HeaderReadsBack(j, plan, v, img);
    ImageShows(v);
    RootReadsBack(v, img);
    forall i: nat, n: nat | i < v.bpb.fats && n <= plan.clusters + 1 ensures ShowsEntry(img, v, i, n) {
      FatReadsBack(j, plan, v, img, i, n);
      SealKeepsSize(j, plan, v);
    }
  }
}
