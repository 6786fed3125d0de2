/** The standard floppy formats (lines 175-190 of mkfs_msdos.c) make sense, and make the volumes they are meant to. */
module Formats {
  import opened Machine
  import opened Fat
  import opened Wrappers
  import opened Layout
  import opened Agreement
  import opened Sizing
  import opened Outcomes
  import opened OptionChecks
  import opened Mkfs
  import Reader

  /** A format has as many bytes as its name says in KB, whole tracks, and whole sectors of root entries. */
  lemma FormatsAddUp(kb: nat, f: Bpb)
    requires StandardFormat(kb) == Some(f)
    ensures f.hugeSectors * f.bytesPerSec == kb * 1024
    ensures f.heads * f.secPerTrack > 0 && f.hugeSectors % (f.heads * f.secPerTrack) == 0
    ensures f.hugeSectors / (f.heads * f.secPerTrack) in {40, 77, 80}
    ensures f.rootDirEnts * 32 % f.bytesPerSec == 0
    ensures f.media >= 0xf0
  {
  }

  /**
   The media byte of a format goes with its sides, sectors per track and tracks, and the root
   directory grows with the density.
   */
  lemma FormatsByMedia(kb: nat, f: Bpb)
    requires StandardFormat(kb) == Some(f)
    ensures f.media in {0xfc, 0xfe} && f.bytesPerSec == 512 ==> f.heads == 1 && f.hugeSectors == 40 * f.secPerTrack
    ensures f.media !in {0xfc, 0xfe} || f.bytesPerSec == 1024 ==> f.heads == 2
    ensures f.media in {0xfb, 0xfe, 0xff} <==> f.secPerTrack == 8
    ensures f.media in {0xfc, 0xfd} ==> f.secPerTrack == 9
    ensures f.media in {0xfd, 0xff} ==> f.hugeSectors == 2 * 40 * f.secPerTrack
    ensures f.media == 0xf9 ==> f.secPerTrack in {9, 15}
    ensures f.media == 0xf0 <==> f.secPerTrack in {18, 36}
    ensures f.rootDirEnts ==
            if f.bytesPerSec == 1024 then 192 else if f.heads == 1 then 64
            else if f.secPerTrack <= 9 then 112 else if f.secPerTrack <= 18 then 224 else 240
  {
  }

  /** Sectors in front of the clusters of a format: the boot sector, two FATs and the root directory. */
  function FrontOf(f: Bpb): nat
    requires f.bytesPerSec > 0
  {
    1 + f.rootDirEnts * 32 / f.bytesPerSec + 2 * f.bigFatSecs
  }

  function ClustersOf(f: Bpb): nat
    requires f.bytesPerSec > 0 && f.secPerClust > 0
  {
    Max(f.hugeSectors - FrontOf(f), 0) / f.secPerClust
  }

  /** A format as far as the layout is concerned: everything is given. */
  predicate Complete(f: Bpb) {
    && ValidBpb(f) && IsSpc(f.secPerClust) && f.resSectors == 1 && f.fats == 2 && 1 <= f.bigFatSecs <= 9
    && f.rootDirEnts > 0 && f.rootDirEnts * 32 % f.bytesPerSec == 0 && f.fsInfo == f.backup == 0
  }

  /** The FAT holds the entries of all clusters, and a shorter one would not. */
  predicate Snug(f: Bpb) {
    && Complete(f) && FrontOf(f) <= f.hugeSectors && 1 <= ClustersOf(f) <= 3000
    && (f.bigFatSecs - 1) * (f.bytesPerSec * 2) < (2 + ClustersOf(f)) * 3 <= f.bigFatSecs * (f.bytesPerSec * 2)
  }

  /** The root directory takes whole sectors. */
  predicate WholeRoots(f: Bpb) {
    && f.rootDirEnts > 0
    && (if f.bytesPerSec == 512 then f.rootDirEnts == f.rootDirEnts / 16 * 16
        else f.bytesPerSec == 1024 && f.rootDirEnts == f.rootDirEnts / 32 * 32)
  }

  lemma FormatRoots(kb: nat, f: Bpb)
    requires StandardFormat(kb) == Some(f)
    ensures WholeRoots(f)
  {
  }

  lemma FormatSizes(kb: nat, f: Bpb)
    requires StandardFormat(kb) == Some(f)
    ensures (f.secPerClust == 1 || f.secPerClust == 2) && 1 <= f.bigFatSecs <= 9 && f.rootDirEnts <= 240
    ensures f.hugeSectors <= 5760 && f.secPerTrack <= 36 && f.heads <= 2 && 0xf0 <= f.media <= 0xff
  {
  }

  lemma FormatConstants(kb: nat, f: Bpb)
    requires StandardFormat(kb) == Some(f)
    ensures f.resSectors == 1 && f.fats == 2 && f.hiddenSecs == f.fsInfo == f.backup == 0
    ensures f.sectors == f.fatSecs == f.rootClust == 0
  {
  }

  lemma FormatsAreComplete(kb: nat, f: Bpb)
    requires StandardFormat(kb) == Some(f)
    ensures Complete(f)
  {
    FormatRoots(kb, f);
    FormatSizes(kb, f);
    FormatConstants(kb, f);
    if f.bytesPerSec == 512 {
      SixteenFill(f.rootDirEnts, f.rootDirEnts / 16);
    } else {
      ThirtyTwoFill(f.rootDirEnts, f.rootDirEnts / 32);
    }
  }

  lemma SixteenFill(rde: nat, q: nat)
    requires rde == q * 16
    ensures rde * 32 % 512 == 0
  {
  }

  lemma ThirtyTwoFill(rde: nat, q: nat)
    requires rde == q * 32
    ensures rde * 32 % 1024 == 0
  {
  }

  /** The same in numbers, with one or two sectors per cluster and sectors of 512 or 1024 bytes. */
  predicate SnugNumbers(big: bool, double: bool, rde: nat, total: nat, spf: nat) {
    var front := 1 + rde / (if big then 32 else 16) + 2 * spf;
    var clusters := if double then (total - front) / 2 else total - front;
    && front <= total && 1 <= clusters <= 3000
    && (if big then (spf - 1) * 2048 < (2 + clusters) * 3 <= spf * 2048
        else (spf - 1) * 1024 < (2 + clusters) * 3 <= spf * 1024)
  }

  lemma FormatNumbers(kb: nat, f: Bpb)
    requires StandardFormat(kb) == Some(f)
    ensures f.bytesPerSec == 512 || f.bytesPerSec == 1024
    ensures f.secPerClust == 1 || f.secPerClust == 2
    ensures SnugNumbers(f.bytesPerSec == 1024, f.secPerClust == 2, f.rootDirEnts, f.hugeSectors, f.bigFatSecs)
  {
  }

  lemma SnugFrom(f: Bpb)
    requires Complete(f)
    requires (f.bytesPerSec == 512 || f.bytesPerSec == 1024) && (f.secPerClust == 1 || f.secPerClust == 2)
    requires SnugNumbers(f.bytesPerSec == 1024, f.secPerClust == 2, f.rootDirEnts, f.hugeSectors, f.bigFatSecs)
    ensures Snug(f)
  {
    var big := f.bytesPerSec == 1024;
    assert f.rootDirEnts * 32 / f.bytesPerSec == f.rootDirEnts / (if big then 32 else 16);
    assert ClustersOf(f) == if f.secPerClust == 2 then (f.hugeSectors - FrontOf(f)) / 2 else f.hugeSectors - FrontOf(f);
  }

  /** Of every format the FATs are exactly as long as its clusters need. */
  lemma FormatsAreSnug(kb: nat, f: Bpb)
    requires StandardFormat(kb) == Some(f)
    ensures Snug(f)
  {
    FormatsAreComplete(kb, f);
    FormatNumbers(kb, f);
    SnugFrom(f);
  }

  function FloppyJob(f: Bpb): Job {
    Job(f, 12, 1, false)
  }

  lemma FloppyFront(f: Bpb)
    requires Complete(f)
    ensures FloppyJob(f).Valid() && FloppyJob(f).RootDirEnts() == f.rootDirEnts
    ensures FloppyJob(f).RootSectors() == f.rootDirEnts * 32 / f.bytesPerSec
    ensures FloppyJob(f).Overhead(1, f.bigFatSecs) == FrontOf(f)
  {
    WholeRoot(f.bytesPerSec, f.rootDirEnts);
  }

  lemma WholeRoot(bps: nat, rde: nat)
    requires IsBps(bps) && rde * 32 % bps == 0
    ensures HowMany(rde, bps / DIRENT) == rde * 32 / bps
  {
    var q := rde * 32 / bps;
    assert rde * 32 == q * bps;
    RootSectorsAgree(bps, rde);
    DivUnique(rde * 32 + (bps - 1), bps, q);
  }

  lemma FloppyFat(f: Bpb)
    requires Snug(f)
    ensures FloppyJob(f).FatSectors(ClustersOf(f)) == f.bigFatSecs
    ensures ClustersOf(f) <= FloppyJob(f).Capacity(f.bigFatSecs) < TWO32
  {
    var j := FloppyJob(f);
    HowManyAtMost((2 + ClustersOf(f)) * 3, j.N(), f.bigFatSecs);
    HowManyAbove((2 + ClustersOf(f)) * 3, j.N(), f.bigFatSecs - 1);
    CapacityGalois(j, f.bigFatSecs, ClustersOf(f));
    MulMono(f.bigFatSecs, 9, j.N());
  }

  /** Everything is given, so the layout is the format itself. */
  lemma FloppyLayout(f: Bpb)
    requires Snug(f)
    ensures FloppyJob(f).Valid()
    ensures Solution(FloppyJob(f)) == Ok(Plan(f, 12, f.rootDirEnts * 32 / f.bytesPerSec, ClustersOf(f)))
  {
    var j := FloppyJob(f);
    FloppyFront(f);
    FloppyFat(f);
    GivenPass(j);
    PlainFinish(j, FinalPass(j).value, ClustersOf(f));
  }

  lemma PlainFinish(j: Job, p: Pass, clusters: nat)
    requires j.Valid() && j.fat == 12 && p.spc > 0 && p.start <= j.bpb.hugeSectors
    requires clusters == (j.bpb.hugeSectors - p.start) / p.spc && 1 <= clusters <= 3000
    requires clusters <= j.Capacity(p.spf) < TWO32
    ensures Finish(j, p) == Ok(Plan(j.bpb.(resSectors := p.res, secPerClust := p.spc, rootDirEnts := j.RootDirEnts(),
                                           bigFatSecs := p.spf), 12, j.RootSectors(), clusters))
  {
  }

  /** The layout is the format itself, as FAT12, and a reader counts exactly the clusters that it has. */
  predicate AcceptedAsIs(f: Bpb) {
    && Complete(f) && FloppyJob(f).Valid()
    && var plan := Plan(f, 12, f.rootDirEnts * 32 / f.bytesPerSec, ClustersOf(f));
       && Solution(FloppyJob(f)) == Ok(plan)
       && ReadAs(Stored(Seal(plan)), ClustersOf(f))
  }

  predicate ReadAs(b: Bpb, clusters: nat) {
    b.bytesPerSec > 0 && b.secPerClust > 0 && Reader.Clusters(b) == clusters && Reader.FatType(b) == 12
  }

  lemma FloppyIsRead(f: Bpb, plan: Plan)
    requires Snug(f) && Solution(FloppyJob(f)) == Ok(plan) && plan.clusters == ClustersOf(f)
    ensures ReadAs(Stored(Seal(plan)), ClustersOf(f))
  {
    var j := FloppyJob(f);
    FloppyFront(f);
    FloppyFat(f);
    PlanBounds(j, plan);
    PlainAgreement(j, plan);
  }

  lemma FloppyIsAccepted(f: Bpb)
    requires Snug(f)
    ensures AcceptedAsIs(f)
  {
    FloppyLayout(f);
    FloppyIsRead(f, Plan(f, 12, f.rootDirEnts * 32 / f.bytesPerSec, ClustersOf(f)));
  }

  /** Every standard format is. */
  lemma FormatsAreAccepted(kb: nat, f: Bpb)
    requires StandardFormat(kb) == Some(f)
    ensures AcceptedAsIs(f)
  {
    FormatsAreSnug(kb, f);
    FloppyIsAccepted(f);
  }

  lemma FormatChecks(o: Options, f: Bpb)
    requires o.floppy.Some? && NothingAsked(o) && Complete(f)
    ensures Checked(o, f) == Ok(Params(f, 12, 1))
  {
    ChecksAgain(o, f, 12, f.secPerClust, 1, f);
  }

  lemma FormatConfigured(o: Options, g: Geometry, f: Bpb)
    requires o.floppy.Some? && NothingAsked(o) && Complete(f) && StartingBlock(o) == Ok(f)
    ensures Posed(o, g) == Ok(FloppyJob(f))
  {
    FormatChecks(o, f);
    ConfiguredFrom(o, g, f, f, Params(f, 12, 1));
    PosedFrom(o, g, Params(f, 12, 1));
  }

  lemma FormatStart(o: Options, kb: nat, f: Bpb)
    requires o.floppy == Some(kb) && StandardFormat(kb) == Some(f) && NothingAsked(o)
    ensures StartingBlock(o) == Ok(f)
  {
  }

  /** Asking for a format and nothing else poses the job of that format. */
  lemma FormatIsPosed(o: Options, g: Geometry, kb: nat, f: Bpb)
    requires o.floppy == Some(kb) && StandardFormat(kb) == Some(f) && NothingAsked(o)
    ensures Posed(o, g) == Ok(FloppyJob(f))
  {
    FormatsAreSnug(kb, f);
    FormatStart(o, kb, f);
    FormatConfigured(o, g, f);
  }
}
