/**
 Automatic choice of the FAT type (lines 456-479) and of the reserved sectors (lines 480-503).
 Line numbers are those of mkfs_msdos.c.
 */
module Selection {
  import opened Machine
  import opened Fat
  import opened Wrappers
  import opened Layout
  import opened Defaults
  import opened Sizing

  /** What the thresholds add up is small. */
  lemma SmallParts(b: Bpb, entries: nat, rde: nat)
    requires ValidBpb(b) && entries <= 0x4000 && rde <= MAXU16
    ensures 0 <= HowMany(entries, b.bytesPerSec * NPB) * b.fats <= 0x100
    ensures HowMany(rde, b.bytesPerSec / DIRENT) <= 0x1000 && HowMany(DEFBLK, b.bytesPerSec) <= 8
  {
    HowManyAtMost(entries, b.bytesPerSec * NPB, 16);
    MulMono(HowMany(entries, b.bytesPerSec * NPB), 16, b.fats);
    MulMono(0, HowMany(entries, b.bytesPerSec * NPB), b.fats);
    HowManyAtMost(rde, b.bytesPerSec / DIRENT, 0x1000);
    HowManyAtMost(DEFBLK, b.bytesPerSec, 8);
  }

  /** Volumes below this many sectors become FAT12. */
  function Fat16From(b: Bpb, bss: nat): (r: nat)
    requires ValidBpb(b) && 1 <= bss <= MAXU16
    ensures r < TWO32
  {
    var spc := if b.secPerClust != 0 then b.secPerClust else HowMany(DEFBLK, b.bytesPerSec);
    var entries := (RESFTE + (if b.secPerClust != 0 then MinCls(16) else MaxCls(12) + 1))
                   * (if b.secPerClust != 0 then 16 else 12) / BPN;
    var root := HowMany(if b.rootDirEnts != 0 then b.rootDirEnts else DEFRDE, b.bytesPerSec / DIRENT);
    var fat := HowMany(entries, b.bytesPerSec * NPB);
    SmallParts(b, entries, if b.rootDirEnts != 0 then b.rootDirEnts else DEFRDE);
    (if b.resSectors != 0 then b.resSectors else bss)
    + fat * b.fats
    + root
    + (if b.secPerClust != 0 then MinCls(16) else MaxCls(12) + 1) * spc
  }

  /** Larger volumes, without a root directory size, become FAT32 from this many sectors on. */
  function Fat32From(b: Bpb, bss: nat): (r: nat)
    requires ValidBpb(b) && 1 <= bss <= MAXU16
    ensures r < TWO32
  {
    var spc := if b.secPerClust != 0 then b.secPerClust else HowMany(8192, b.bytesPerSec);
    HowManyAtMost((RESFTE + MaxCls(16)) * 2, b.bytesPerSec, 256);
    MulMono(HowMany((RESFTE + MaxCls(16)) * 2, b.bytesPerSec), 256, b.fats);
    HowManyAtMost(DEFRDE, b.bytesPerSec / DIRENT, 32);
    HowManyAtMost(8192, b.bytesPerSec, 16);
    (if b.resSectors != 0 then b.resSectors else bss)
    + HowMany((RESFTE + MaxCls(16)) * 2, b.bytesPerSec) * b.fats
    + HowMany(DEFRDE, b.bytesPerSec / DIRENT)
    + (MaxCls(16) + 1) * spc
  }

  function SelectFat(b: Bpb, bss: nat): (fat: nat)
    requires ValidBpb(b) && 1 <= bss <= MAXU16
    ensures IsFat(fat) && (fat == 32 ==> b.rootDirEnts == 0)
  {
    if b.hugeSectors < Fat16From(b, bss) then 12
    else if b.rootDirEnts != 0 || b.hugeSectors < Fat32From(b, bss) then 16
    else 32
  }

  /** The volume tried as a given type; `spc` is the cluster size to go by if none is given. */
  function Tried(b: Bpb, bss: nat, fat: nat, spc: nat): (j: Job)
    requires ValidBpb(b) && 1 <= bss <= MAXU16 && (fat == 12 || fat == 16) && IsSpc(spc)
    ensures j.Valid()
  {
    Job(b.(secPerClust := if b.secPerClust != 0 then b.secPerClust else spc), fat, bss, false)
  }

  /**
   FAT12 is picked exactly for volumes that are too small: with a cluster size given, for the least
   FAT16 of it; without one, for one cluster of 4 KiB more than FAT12 may have.
   */
  lemma Fat12PickedExactly(b: Bpb, bss: nat)
    requires ValidBpb(b) && 1 <= bss <= MAXU16
    ensures b.secPerClust != 0 ==>
              (SelectFat(b, bss) == 12 <==> !Holds(Tried(b, bss, 16, b.secPerClust), MinCls(16)))
    ensures b.secPerClust == 0 ==>
              (SelectFat(b, bss) == 12 <==> !Holds(Tried(b, bss, 12, 4096 / b.bytesPerSec), MaxCls(12) + 1))
  {
  }

  lemma ThresholdsInOrder(b: Bpb, bss: nat)
    requires ValidBpb(b) && 1 <= bss <= MAXU16 && b.rootDirEnts == 0
    ensures Fat16From(b, bss) <= Fat32From(b, bss)
  {
    var few := (RESFTE + (if b.secPerClust != 0 then MinCls(16) else MaxCls(12) + 1))
               * (if b.secPerClust != 0 then 16 else 12) / BPN;
    var many := (RESFTE + MaxCls(16)) * 2;
    HowManyAtMost(few, b.bytesPerSec * NPB, HowMany(many, b.bytesPerSec));
    MulMono(HowMany(few, b.bytesPerSec * NPB), HowMany(many, b.bytesPerSec), b.fats);
  }

  lemma Fat32Threshold(b: Bpb, bss: nat, spc: nat)
    requires ValidBpb(b) && 1 <= bss <= MAXU16 && b.rootDirEnts == 0
    requires spc == if b.secPerClust != 0 then b.secPerClust else 8192 / b.bytesPerSec
    ensures IsSpc(spc) && (b.hugeSectors >= Fat32From(b, bss) <==> Holds(Tried(b, bss, 16, spc), MaxCls(16) + 1))
  {
    var j := Tried(b, bss, 16, spc);
    assert j.FatSectors(MaxCls(16) + 1) == HowMany((RESFTE + MaxCls(16)) * 2, b.bytesPerSec);
  }

  /**
   FAT32 is picked exactly for volumes that have no root directory size given and are too large for
   FAT16: one cluster more than it may have, of the size given or else of 8 KiB, fits.
   */
  lemma Fat32PickedExactly(b: Bpb, bss: nat)
    requires ValidBpb(b) && 1 <= bss <= MAXU16
    ensures var spc := if b.secPerClust != 0 then b.secPerClust else 8192 / b.bytesPerSec;
            SelectFat(b, bss) == 32 <==> b.rootDirEnts == 0 && Holds(Tried(b, bss, 16, spc), MaxCls(16) + 1)
  {
    if b.rootDirEnts == 0 {
      ThresholdsInOrder(b, bss);
      Fat32Threshold(b, bss, if b.secPerClust != 0 then b.secPerClust else 8192 / b.bytesPerSec);
    }
  }

  /** The info and backup sectors in use, and the least size of the reserved area. */
  datatype Reserved = Reserved(need: nat, fsInfo: nat, backup: nat)

  /**
   Whatever the options, an accepted FAT32 volume keeps its info and backup sectors apart,
   off the boot sector, and inside the reserved area.
   */
  function ReserveSectors(fat: nat, bss: nat, fsInfo: nat, backup: nat): (r: Result<Reserved, Error>)
    requires 1 <= bss <= MAXU16 && fsInfo <= MAXU16 && backup <= MAXU16
    ensures r.Ok? ==> bss <= r.value.need <= MAXU16 && r.value.fsInfo <= MAXU16 && r.value.backup <= MAXU16
    ensures r.Ok? && fat == 32 ==>
              && 1 <= r.value.fsInfo && 1 <= r.value.backup
              && (r.value.fsInfo != MAXU16 ==> r.value.fsInfo < r.value.need && r.value.fsInfo != r.value.backup)
              && (r.value.backup != MAXU16 ==> r.value.backup < r.value.need)
  {
    if fat != 32 then Ok(Reserved(bss, fsInfo, backup))
    else if fsInfo == 0 && (bss == MAXU16 || bss == backup) then Err(NoRoomForInfo)
    else
      var info := if fsInfo == 0 then bss else fsInfo;
      var x := if info != MAXU16 && bss <= info then info + 1 else bss;
      if backup == 0 && x == MAXU16 then Err(NoRoomForBackup)
      else if backup != 0 && backup != MAXU16 && backup == info then Err(BackupOverInfo)
      else
        var copy := if backup == 0 then x else backup;
        Ok(Reserved(if copy != MAXU16 && x <= copy then copy + 1 else x, info, copy))
  }

  /** Asking again for the chosen sectors chooses the same ones. */
  lemma ReservedAgain(fat: nat, bss: nat, fsInfo: nat, backup: nat, r: Reserved)
    requires 1 <= bss <= MAXU16 && fsInfo <= MAXU16 && backup <= MAXU16
    requires ReserveSectors(fat, bss, fsInfo, backup) == Ok(r)
    ensures ReserveSectors(fat, bss, r.fsInfo, r.backup) == Ok(r)
  {
  }

  /**
   On FAT32 the sectors asked for are kept. Those left open are the first behind the bootstrap and
   behind each other, and the reserved area needs no more than to hold them all.
   */
  lemma ReservedExactly(bss: nat, fsInfo: nat, backup: nat, r: Reserved)
    requires 1 <= bss <= MAXU16 && fsInfo <= MAXU16 && backup <= MAXU16
    requires ReserveSectors(32, bss, fsInfo, backup) == Ok(r)
    ensures r.fsInfo == if fsInfo != 0 then fsInfo else bss
    ensures backup != 0 ==> r.backup == backup
    ensures backup == 0 ==>
              && bss <= r.backup && (r.fsInfo != MAXU16 ==> r.fsInfo < r.backup)
              && (r.backup == bss || (r.fsInfo != MAXU16 && r.backup == r.fsInfo + 1))
    ensures r.need == bss || r.need == r.fsInfo + 1 || r.need == r.backup + 1
  {
  }

  /** It is refused exactly when a sector left open finds no place, or both are asked to be the same. */
  lemma ReserveRefused(bss: nat, fsInfo: nat, backup: nat)
    requires 1 <= bss <= MAXU16 && fsInfo <= MAXU16 && backup <= MAXU16
    ensures ReserveSectors(32, bss, fsInfo, backup) == Err(NoRoomForInfo) <==>
              fsInfo == 0 && (bss == MAXU16 || bss == backup)
    ensures ReserveSectors(32, bss, fsInfo, backup) == Err(NoRoomForBackup) <==>
              backup == 0 && (if fsInfo == 0 then bss == MAXU16 - 1 else bss == MAXU16 || fsInfo == MAXU16 - 1)
    ensures ReserveSectors(32, bss, fsInfo, backup) == Err(BackupOverInfo) <==>
              fsInfo != 0 && backup == fsInfo != MAXU16
    ensures ReserveSectors(32, bss, fsInfo, backup).Err? ==>
              ReserveSectors(32, bss, fsInfo, backup).error in {NoRoomForInfo, NoRoomForBackup, BackupOverInfo}
  {
  }

  /** Nothing but the bootstrap is reserved on FAT12 and FAT16. */
  lemma ReservedOnFat16(fat: nat, bss: nat, fsInfo: nat, backup: nat)
    requires fat != 32 && 1 <= bss <= MAXU16 && fsInfo <= MAXU16 && backup <= MAXU16
    ensures ReserveSectors(fat, bss, fsInfo, backup) == Ok(Reserved(bss, fsInfo, backup))
  {
  }

  /** The job that a selected FAT type leads to when the FAT size is to be computed and alignment is off. */
  function SelectedJob(b: Bpb, bss: nat, r: Reserved): Job
    requires ValidBpb(b) && 1 <= bss <= MAXU16
  {
    Job(b.(fsInfo := r.fsInfo, backup := r.backup), SelectFat(b, bss), r.need, false)
  }

  /** The default cluster size of a FAT type either is the starting one, or half of it passed the doubling test. */
  lemma DefaultClusterTests(j: Job, res: nat)
    requires j.Valid() && j.bpb.secPerClust == 0
    ensures var first := HowMany(if j.fat == 16 then DEFBLK16 else DEFBLK, j.bpb.bytesPerSec);
            var spc := j.Cluster(res);
            || spc == first
            || (j.Overhead(res, j.FatSectors(MinCls(j.fat))) + (MaxCls(j.fat) + 1) * (spc / 2) <= j.bpb.hugeSectors
                && spc >= 2)
  {
    var most := j.FatSectors(MaxCls(j.fat));
    DefaultExactly(j, res, j.Cluster(res));
    FatSectorsMonotone(j, MinCls(j.fat), MaxCls(j.fat));
    OverheadMonotone(j, res, j.FatSectors(MinCls(j.fat)), most);
  }

  /** What the FAT16 threshold budgets with no cluster size given covers the smallest FAT16 volume. */
  lemma Fat16Budget(bps: nat, fats: nat)
    requires IsBps(bps) && 1 <= fats <= MAXNFT
    ensures HowMany(16348, bps * NPB) * fats + MinCls(16) * HowMany(DEFBLK16, bps)
            <= HowMany(12261, bps * NPB) * fats + MinCls(16) * HowMany(DEFBLK, bps)
  {
    assert HowMany(16348, bps * NPB)
           <= HowMany(12261, bps * NPB) + 16 * (HowMany(DEFBLK, bps) - HowMany(DEFBLK16, bps));
    assert (HowMany(DEFBLK, bps) - HowMany(DEFBLK16, bps)) * fats
           <= (HowMany(DEFBLK, bps) - HowMany(DEFBLK16, bps)) * MAXNFT by {
      MulMono(fats, MAXNFT, HowMany(DEFBLK, bps) - HowMany(DEFBLK16, bps));
    }
    MulMono(HowMany(16348, bps * NPB),
            HowMany(12261, bps * NPB) + 16 * (HowMany(DEFBLK, bps) - HowMany(DEFBLK16, bps)), fats);
  }

  /** An automatic FAT16 volume has room: the test that picked the type budgeted for it. */
  lemma Fat16HasRoom(b: Bpb, bss: nat, r: Reserved)
    requires ValidBpb(b) && 1 <= bss <= MAXU16 && b.bigFatSecs == 0
    requires SelectFat(b, bss) == 16 && ReserveSectors(16, bss, b.fsInfo, b.backup) == Ok(r)
    ensures HasRoom(SelectedJob(b, bss, r))
  {
    var j := SelectedJob(b, bss, r);
    assert j.FatSectors(MinCls(16)) == HowMany(16348, b.bytesPerSec * NPB);
    if b.secPerClust == 0 {
      DefaultClusterTests(j, j.Reserved(0));
      Fat16Budget(b.bytesPerSec, b.fats);
    }
  }

  /** An automatic FAT32 volume with no cluster size given has room too. */
  lemma Fat32DefaultHasRoom(b: Bpb, bss: nat, r: Reserved)
    requires ValidBpb(b) && 1 <= bss <= MAXU16 && b.bigFatSecs == 0
    requires b.secPerClust == 0 && b.fsInfo == b.backup == 0
    requires SelectFat(b, bss) == 32 && ReserveSectors(32, bss, 0, 0) == Ok(r)
    ensures HasRoom(SelectedJob(b, bss, r))
  {
    var j := SelectedJob(b, bss, r);
    DefaultClusterTests(j, j.Reserved(0));
    Fat32Budget(b.bytesPerSec, b.fats);
    Fat32FromBudget(b, bss);
    assert j.FatArea(j.FatSectors(MinCls(32))) == HowMany(524216, b.bytesPerSec * NPB) * b.fats;
    DefaultReserveFits(j, bss);
    Fat32Fits(b.hugeSectors, j.Overhead(j.Reserved(0), j.FatSectors(MinCls(32))),
              if b.resSectors != 0 then b.resSectors else bss, HowMany(DEFBLK, b.bytesPerSec),
              j.Cluster(j.Reserved(0)));
  }

  lemma Fat32Fits(huge: nat, overhead: nat, base: nat, first: nat, spc: nat)
    requires overhead <= base + 34 + 0x2000 && base + 0xfff5 * (2 * first) <= huge && first >= 1 && IsSpc(spc)
    requires spc == first || (overhead + (MaxCls(32) + 1) * (spc / 2) <= huge && spc >= 2)
    ensures overhead + MinCls(32) * spc <= huge
  {
  }

  /** Defaults of the reserved area are small against what the threshold budgets. */
  lemma DefaultReserveFits(j: Job, bss: nat)
    requires j.Valid() && j.fat == 32 && j.need <= bss + 2
    ensures j.Reserved(0) <= (if j.bpb.resSectors != 0 then j.bpb.resSectors else bss) + 34
  {
  }

  lemma Fat32FromBudget(b: Bpb, bss: nat)
    requires ValidBpb(b) && 1 <= bss <= MAXU16 && b.secPerClust == 0
    ensures Fat32From(b, bss) >=
            (if b.resSectors != 0 then b.resSectors else bss) + (MaxCls(16) + 1) * HowMany(8192, b.bytesPerSec)
  {
    MulMono(0, HowMany((RESFTE + MaxCls(16)) * 2, b.bytesPerSec), b.fats);
  }

  /** What the FAT32 threshold budgets with no cluster size given covers the smallest FAT32 volume and more. */
  lemma Fat32Budget(bps: nat, fats: nat)
    requires IsBps(bps) && 1 <= fats <= MAXNFT
    ensures HowMany(524216, bps * NPB) * fats <= 0x2000
    ensures HowMany(8192, bps) == 2 * HowMany(DEFBLK, bps) && 1 <= HowMany(DEFBLK, bps)
  {
    HowManyAtMost(524216, bps * NPB, 512);
    MulMono(HowMany(524216, bps * NPB), 512, fats);
  }

  /**
   Automatic selection is safe: a volume for which FAT16 is picked, or FAT32 without a given
   cluster size, is never rejected afterwards, unless too few reserved sectors were given.
   */
  lemma SelectionIsSafe(b: Bpb, bss: nat, r: Reserved)
    requires ValidBpb(b) && 1 <= bss <= MAXU16 && b.bigFatSecs == 0
    requires b.secPerClust == 0 || SelectFat(b, bss) == 16
    requires SelectFat(b, bss) != 12 && (SelectFat(b, bss) == 32 ==> b.fsInfo == b.backup == 0)
    requires ReserveSectors(SelectFat(b, bss), bss, b.fsInfo, b.backup) == Ok(r)
    ensures Solution(SelectedJob(b, bss, r)).Ok? <==> b.resSectors == 0 || b.resSectors >= r.need
    ensures b.resSectors != 0 && b.resSectors < r.need ==> Solution(SelectedJob(b, bss, r)) == Err(TooFewReserved)
  {
    var j := SelectedJob(b, bss, r);
    if j.Reserved(0) >= j.need {
      AcceptedExactly(j);
      if j.fat == 16 {
        Fat16HasRoom(b, bss, r);
      } else {
        Fat32DefaultHasRoom(b, bss, r);
      }
    }
  }

  /** A 2 GiB disk with the 32 KiB clusters its size suggests. */
  predicate IsTwoGib(b: Bpb) {
    && ValidBpb(b) && b.bytesPerSec == 512 && b.hugeSectors == 4194304 && b.secPerClust == 64 && b.fats == 2
    && b.resSectors == b.rootDirEnts == b.bigFatSecs == b.fsInfo == b.backup == 0
  }

  /** FAT32 is picked for it automatically, and the layout then refuses it. */
  lemma AutomaticFat32CanFail(b: Bpb, r: Reserved)
    requires IsTwoGib(b) && ReserveSectors(32, 1, b.fsInfo, b.backup) == Ok(r)
    ensures SelectFat(b, 1) == 32 && Solution(SelectedJob(b, 1, r)).Err?
  {
    assert HowMany(131052, 512) == 256 && HowMany(512, 16) == 32 && HowMany(16348, 1024) == 16;
    var j := SelectedJob(b, 1, r);
    assert j.FatSectors(MinCls(32)) == 512;
    AcceptedExactly(j);
  }
}
