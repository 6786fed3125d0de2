/**
 What the layout of a volume is, over unbounded integers: reserved area, cluster size, FAT size
 and cluster count. Solver.Solve computes it the way the source does.
 Line numbers are those of mkfs_msdos.c.
 */
module Layout {
  import opened Machine
  import opened Fat
  import opened Wrappers
  import opened Tightness

  /** The state on entry to the layout loop: the FAT type is known and `need` is saved_x. */
  datatype Job = Job(bpb: Bpb, fat: nat, need: nat, align: bool) {
    predicate Valid() {
      && ValidBpb(bpb)
      && IsFat(fat)
      && 1 <= need <= MAXU16
      && (fat == 32 ==> bpb.rootDirEnts == 0)
    }

    function RootDirEnts(): nat {
      if fat != 32 && bpb.rootDirEnts == 0 then DEFRDE else bpb.rootDirEnts
    }

    function RootSectors(): nat
      requires IsBps(bpb.bytesPerSec)
    {
      HowMany(RootDirEnts(), bpb.bytesPerSec / DIRENT)
    }

    /** Nibbles per sector. */
    function N(): nat {
      bpb.bytesPerSec * NPB
    }

    /** Nibbles per FAT entry. */
    function E(): nat {
      fat / BPN
    }

    /** Sectors of a FAT that holds this many clusters. */
    function FatSectors(clusters: nat): (k: nat)
      requires IsBps(bpb.bytesPerSec) && IsFat(fat)
      ensures k >= 1
    {
      HowMany((RESFTE + clusters) * E(), N())
    }

    /** Clusters that a FAT of this many sectors can describe. */
    function Capacity(spf: nat): nat
      requires IsBps(bpb.bytesPerSec) && IsFat(fat)
    {
      Max(spf * N() / E() - RESFTE, 0)
    }

    /** Sectors taken by all FATs. */
    function FatArea(spf: nat): nat {
      spf * bpb.fats
    }

    /** Sectors in front of the first cluster. */
    function Overhead(res: nat, spf: nat): nat
      requires IsBps(bpb.bytesPerSec)
    {
      res + RootSectors() + FatArea(spf)
    }

    function Reserved(extra: nat): nat
      requires bpb.bytesPerSec > 0
    {
      if bpb.resSectors != 0 then bpb.resSectors
      else (if fat == 32 then Max(need, Max(16384 / bpb.bytesPerSec, 4)) else need) + extra
    }

    function Cluster(res: nat): (spc: nat)
      requires Valid()
      ensures IsSpc(spc)
    {
      if bpb.secPerClust != 0 then bpb.secPerClust
      else Doubled(Overhead(res, FatSectors(MaxCls(fat))), MaxCls(fat) + 1, bpb.hugeSectors,
                   HowMany(if fat == 16 then DEFBLK16 else DEFBLK, bpb.bytesPerSec))
    }
  }

  /** The doubling search for a default cluster size. */
  function Doubled(fixed: nat, unit: nat, huge: nat, spc: nat): (r: nat)
    requires IsSpc(spc)
    ensures IsSpc(r)
    decreases MAXSPC - spc
  {
    if spc < MAXSPC && fixed + unit * spc <= huge then Doubled(fixed, unit, huge, 2 * spc) else spc
  }

  /** Clusters that fit in `room` sectors when each one also costs its nibbles in every FAT. */
  function Estimate(room: nat, spc: nat, n: nat, cost: nat): (x: nat)
    requires spc > 0 && n > 0
    ensures x * (spc * n + cost) <= room * n < (x + 1) * (spc * n + cost)
  {
    MulMono(1, spc, n);
    MulMono(0, room, n);
    Quotient(room * n, spc * n + cost)
  }

  /**
   One trip round the layout loop: `start` is x1 (where the code thinks the clusters
   begin), `estimate` is x, `wanted` is x2.
   */
  datatype Pass = Pass(res: nat, spc: nat, spf: nat, start: nat, estimate: nat, wanted: nat, skew: nat)

  function OnePass(j: Job, extra: nat, spf: nat): (r: Result<Pass, Error>)
    requires j.Valid()
    ensures r.Ok? ==> r.value.spf >= 1 && IsSpc(r.value.spc) && r.value.skew < r.value.spc
    ensures r.Ok? && j.bpb.bigFatSecs != 0 ==> r.value.start <= j.bpb.hugeSectors
    ensures r.Ok? && j.bpb.resSectors != 0 ==> r.value.skew == 0
  {
    var res := j.Reserved(extra);
    if res < j.need then Err(TooFewReserved) else Place(j, res, j.Cluster(res), spf)
  }

  /** The part of a pass that follows the choice of reserved area and cluster size (lines 548-572). */
  function Place(j: Job, res: nat, spc: nat, spf: nat): (r: Result<Pass, Error>)
    requires j.Valid() && IsSpc(spc)
    ensures r.Ok? ==> r.value.spf >= 1 && r.value.spc == spc && r.value.skew < spc
    ensures r.Ok? && j.bpb.bigFatSecs != 0 ==> r.value.start <= j.bpb.hugeSectors
    ensures r.Ok? && j.bpb.resSectors != 0 ==> r.value.skew == 0
  {
    var base := j.Overhead(res, if spf != 0 then spf else 1);
    if j.fat != 32 && spf > MAXU16 then
      Err(FatTooLarge)
    else if base > j.bpb.hugeSectors then
      Err(MetaDataExceeds)
    else
      var estimate := Estimate(j.bpb.hugeSectors - base, spc, j.N(), j.FatArea(j.E()));
      var wanted := j.FatSectors(Min(estimate, MaxCls(j.fat)));
      var spf' := if spf == 0 then wanted else spf;
      var start := if j.bpb.bigFatSecs == 0 then base + j.FatArea(spf' - 1) else base;
      var skew := if j.bpb.resSectors == 0 then (res + j.FatArea(spf')) % spc else 0;
      Ok(Pass(res, spc, spf', start, estimate, wanted, skew))
  }

  /** The FATs cost little: eight entries of every FAT fit in one sector. */
  lemma EntryCost(j: Job)
    requires j.Valid()
    ensures 8 * (j.E() * j.bpb.fats) <= j.N() && 1 <= j.E() && 1024 <= j.N()
  {
    MulMono(j.E(), 8, j.bpb.fats);
  }

  /** What a first pass that computes the FAT size knows of its estimate and of the FAT it sized by it. */
  lemma ComputedFacts(j: Job, p: Pass)
    requires j.Valid() && j.bpb.bigFatSecs == 0 && OnePass(j, 0, 0) == Ok(p)
    ensures j.Overhead(p.res, 1) <= j.bpb.hugeSectors && p.spc >= 1 && p.spf >= 1
    ensures var room, cost := j.bpb.hugeSectors - j.Overhead(p.res, 1), p.spc * j.N() + j.E() * j.bpb.fats;
            p.estimate * cost <= room * j.N() < (p.estimate + 1) * cost
    ensures var m := Min(p.estimate, MaxCls(j.fat));
            p.spf == j.FatSectors(m) && (p.spf - 1) * j.N() < (RESFTE + m) * j.E() <= p.spf * j.N()
    ensures p.spf == p.wanted && p.start == j.Overhead(p.res, p.spf)
  {
    ComputedStart(j, p);
    ComputedFat(j, p);
  }

  lemma ComputedStart(j: Job, p: Pass)
    requires j.Valid() && j.bpb.bigFatSecs == 0 && OnePass(j, 0, 0) == Ok(p)
    ensures j.Overhead(p.res, 1) <= j.bpb.hugeSectors
    ensures p.spf == p.wanted >= 1 && p.start == j.Overhead(p.res, p.spf)
  {
    FatAreaSplit(j, p.wanted);
  }

  lemma ComputedFat(j: Job, p: Pass)
    requires j.Valid() && j.bpb.bigFatSecs == 0 && OnePass(j, 0, 0) == Ok(p)
    ensures j.Overhead(p.res, 1) <= j.bpb.hugeSectors
    ensures p.estimate == Estimate(j.bpb.hugeSectors - j.Overhead(p.res, 1), p.spc, j.N(), j.FatArea(j.E()))
    ensures p.spf == j.FatSectors(Min(p.estimate, MaxCls(j.fat)))
  {
  }

  /** A first pass that computes the FAT size leaves room for the clusters it estimated. */
  lemma ComputedPass(j: Job, p: Pass)
    requires j.Valid() && j.bpb.bigFatSecs == 0 && OnePass(j, 0, 0) == Ok(p)
    ensures p.spf == p.wanted && p.start == j.Overhead(p.res, p.spf)
    ensures p.start + p.estimate * p.spc <= j.bpb.hugeSectors
    ensures p.estimate <= MaxCls(j.fat) ==>
              j.bpb.hugeSectors < p.start + (p.estimate + 1) * p.spc + j.bpb.fats
  {
    var m := Min(p.estimate, MaxCls(j.fat));
    var room := j.bpb.hugeSectors - j.Overhead(p.res, 1);
    ComputedFacts(j, p);
    EntryCost(j);
    FatAreaSplit(j, p.spf);
    EstimateFits(room, p.spc, j.N(), j.E(), j.bpb.fats, p.estimate, m, p.spf);
    if p.estimate <= MaxCls(j.fat) {
      EstimateFills(room, p.spc, j.N(), j.E(), j.bpb.fats, p.estimate, p.spf);
    }
  }

  lemma FatAreaSplit(j: Job, spf: nat)
    requires spf >= 1
    ensures j.FatArea(spf) == j.FatArea(1) + j.FatArea(spf - 1)
    ensures j.FatArea(1) == j.bpb.fats && j.FatArea(spf - 1) == (spf - 1) * j.bpb.fats
  {
  }

  /**
   The second pass counts the FATs nearly twice when their size was computed, yet even
   then the data area it sees starts inside the volume.
   */
  lemma SecondPassFits(j: Job, p: Pass, q: Pass)
    requires j.Valid()
    requires OnePass(j, 0, j.bpb.bigFatSecs) == Ok(p) && p.skew != 0
    requires OnePass(j, p.spc - p.skew, p.spf) == Ok(q)
    ensures q.start <= j.bpb.hugeSectors
  {
    if j.bpb.bigFatSecs == 0 {
      if p.spf >= 2 {
        SecondStart(j, p, q);
        DoubleFatsFit(j, p);
      } else {
        OneSectorFits(j, p.spc - p.skew, q);
      }
    }
  }

  lemma DoubleFatsFit(j: Job, p: Pass)
    requires j.Valid() && j.bpb.bigFatSecs == 0 && OnePass(j, 0, 0) == Ok(p) && p.skew != 0 && p.spf >= 2
    ensures j.Overhead(p.res, 1) + (p.spc - p.skew) + 2 * ((p.spf - 1) * j.bpb.fats) <= j.bpb.hugeSectors
  {
    ComputedFacts(j, p);
    EntryCost(j);
    DoubleCountFits(j.bpb.hugeSectors - j.Overhead(p.res, 1), p.spc, j.N(), j.E(), j.bpb.fats, p.estimate,
                    Min(p.estimate, MaxCls(j.fat)), p.spf, p.spc - p.skew);
  }

  lemma OneSectorFits(j: Job, extra: nat, q: Pass)
    requires j.Valid() && j.bpb.bigFatSecs == 0 && OnePass(j, extra, 1) == Ok(q)
    ensures q.start <= j.bpb.hugeSectors
  {
  }

  lemma SecondStart(j: Job, p: Pass, q: Pass)
    requires j.Valid() && j.bpb.bigFatSecs == 0
    requires OnePass(j, 0, 0) == Ok(p) && p.skew != 0 && OnePass(j, p.spc - p.skew, p.spf) == Ok(q)
    ensures q.start == j.Overhead(p.res, 1) + (p.spc - p.skew) + 2 * ((p.spf - 1) * j.bpb.fats)
  {
    FatAreaSplit(j, p.spf);
  }

  lemma FirstPassFits(j: Job, p: Pass)
    requires j.Valid() && OnePass(j, 0, j.bpb.bigFatSecs) == Ok(p)
    ensures p.start <= j.bpb.hugeSectors
  {
    if j.bpb.bigFatSecs == 0 {
      ComputedPass(j, p);
      MulMono(0, p.estimate, p.spc);
    }
  }

  /** The pass whose numbers the layout keeps: a second one only to align, after a first that did not. */
  function FinalPass(j: Job): (r: Result<Pass, Error>)
    requires j.Valid()
    ensures r.Ok? ==> r.value.start <= j.bpb.hugeSectors && r.value.spf >= 1 && IsSpc(r.value.spc)
  {
    var p :- OnePass(j, 0, j.bpb.bigFatSecs);
    FirstPassFits(j, p);
    if j.align && p.skew != 0 then
      var q :- OnePass(j, p.spc - p.skew, p.spf);
      SecondPassFits(j, p, q);
      Ok(q)
    else
      Ok(p)
  }

  /** A volume laid out: its parameter block (32-bit fields only), root directory size and clusters. */
  datatype Plan = Plan(bpb: Bpb, fat: nat, rootSectors: nat, clusters: nat)

  /** Lines 581-599: the cluster count, its two clamps, and the cut to what the FAT type allows. */
  function Finish(j: Job, p: Pass): Result<Plan, Error>
    requires j.Valid() && p.start <= j.bpb.hugeSectors && p.spc > 0
  {
    var fit := (j.bpb.hugeSectors - p.start) / p.spc;
    var clusters := Min(fit, Wrap32(j.Capacity(p.spf)));
    if clusters < MinCls(j.fat) then
      Err(TooFewClusters(clusters))
    else
      var most := MaxCls(j.fat);
      var total := if clusters > most then p.start + (most + 1) * p.spc - 1 else j.bpb.hugeSectors;
      Ok(Plan(j.bpb.(resSectors := p.res, secPerClust := p.spc, rootDirEnts := j.RootDirEnts(),
                     bigFatSecs := p.spf, hugeSectors := total),
              j.fat, j.RootSectors(), Min(clusters, most)))
  }

  /** What the layout loop and the clamping after it compute. */
  function Solution(j: Job): Result<Plan, Error>
    requires j.Valid()
  {
    var p :- FinalPass(j);
    Finish(j, p)
  }
}
