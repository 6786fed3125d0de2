/** When a layout with a computed FAT size is accepted, how good its estimate is, and what it is worth. */
module Sizing {
  import opened Machine
  import opened Fat
  import opened Wrappers
  import opened Layout
  import opened Agreement
  import Reader

  /** FAT size computed, one pass. */
  predicate Plain(j: Job) {
    j.Valid() && j.bpb.bigFatSecs == 0 && !j.align
  }

  /**
   The estimate is tight: the clusters that really fit are never fewer than estimated, and
   exceed the estimate by at most the sectors one more FAT sector row would take.
   */
  lemma EstimateIsTight(j: Job, p: Pass)
    requires Plain(j) && FinalPass(j) == Ok(p)
    ensures p.estimate <= (j.bpb.hugeSectors - p.start) / p.spc
    ensures p.estimate <= MaxCls(j.fat) ==>
              (j.bpb.hugeSectors - p.start) / p.spc <= p.estimate + HowMany(j.bpb.fats, p.spc)
  {
    OnePassIsStraight(j, p);
    ComputedPass(j, p);
    DivAtLeast(j.bpb.hugeSectors - p.start, p.spc, p.estimate);
    if p.estimate <= MaxCls(j.fat) {
      SpareClusters(j.bpb.hugeSectors - p.start, p.estimate, p.spc, j.bpb.fats);
    }
  }

  lemma SpareClusters(room: nat, x: nat, s: nat, f: nat)
    requires s >= 1 && room < (x + 1) * s + f
    ensures room / s <= x + HowMany(f, s)
  {
    var spare := HowMany(f, s);
    assert (x + 1 + spare) * s == (x + 1) * s + spare * s;
    DivBelow(room, s, x + 1 + spare);
  }

  lemma FatSectorsMonotone(j: Job, a: nat, b: nat)
    requires j.Valid() && a <= b
    ensures j.FatSectors(a) <= j.FatSectors(b)
  {
    MulMono(RESFTE + a, RESFTE + b, j.E());
    HowManyAtMost((RESFTE + a) * j.E(), j.N(), j.FatSectors(b));
  }

  /** A FAT describes so many clusters exactly when it holds their entries and the two reserved ones. */
  lemma CapacityExactly(j: Job, spf: nat, clusters: nat)
    requires j.Valid() && clusters >= 1
    ensures clusters <= j.Capacity(spf) <==> (RESFTE + clusters) * j.E() <= spf * j.N()
  {
    DivBelowExactly(spf * j.N(), j.E(), RESFTE + clusters);
  }

  /** A FAT describes a number of clusters exactly when it is at least as long as computed for them. */
  lemma CapacityGalois(j: Job, spf: nat, clusters: nat)
    requires j.Valid() && clusters >= 1
    ensures j.Capacity(spf) >= clusters <==> spf >= j.FatSectors(clusters)
  {
    var need := (RESFTE + clusters) * j.E();
    if spf >= j.FatSectors(clusters) {
      MulMono(j.FatSectors(clusters), spf, j.N());
      DivAtLeast(spf * j.N(), j.E(), RESFTE + clusters);
    }
    if j.Capacity(spf) >= clusters {
      DivBounds(spf * j.N(), j.E());
      MulMono(RESFTE + clusters, spf * j.N() / j.E(), j.E());
      HowManyAtMost(need, j.N(), spf);
    }
  }

  /** So the clamp to what the FAT describes drops at most that many clusters. */
  lemma ClampDropsFew(j: Job, p: Pass)
    requires Plain(j) && FinalPass(j) == Ok(p) && p.estimate <= MaxCls(j.fat)
    ensures p.estimate <= Wrap32(j.Capacity(p.spf))
    ensures (j.bpb.hugeSectors - p.start) / p.spc - Wrap32(j.Capacity(p.spf)) <= HowMany(j.bpb.fats, p.spc)
  {
    EstimateIsTight(j, p);
    FatSectorsSmall(j, p.estimate);
    if p.estimate >= 1 {
      CapacityGalois(j, p.spf, p.estimate);
    }
  }

  lemma OverheadMonotone(j: Job, res: nat, a: nat, b: nat)
    requires j.Valid() && a <= b
    ensures j.Overhead(res, a) + (b - a) * j.bpb.fats == j.Overhead(res, b)
    ensures (b - a) * j.bpb.fats >= b - a
  {
    MulMono(1, j.bpb.fats, b - a);
  }

  /** There is room for so many clusters, and for FATs that describe them. */
  predicate Holds(j: Job, clusters: nat)
    requires j.Valid()
  {
    var res := j.Reserved(0);
    j.Overhead(res, j.FatSectors(clusters)) + clusters * j.Cluster(res) <= j.bpb.hugeSectors
  }

  /** There is room for the least number of clusters the FAT type needs. */
  predicate HasRoom(j: Job)
    requires j.Valid()
  {
    Holds(j, MinCls(j.fat))
  }

  /**
   With the FAT size computed and alignment off, a volume is accepted exactly when it has room for
   the smallest volume of its FAT type.
   */
  lemma AcceptedExactly(j: Job)
    requires Plain(j) && j.Reserved(0) >= j.need
    ensures Solution(j).Ok? <==> HasRoom(j)
  {
    if Solution(j).Ok? {
      AcceptedHasRoom(j, FinalPass(j).value);
    }
    if HasRoom(j) {
      RoomIsAccepted(j);
    }
  }

  lemma AcceptedHasRoom(j: Job, p: Pass)
    requires Plain(j) && FinalPass(j) == Ok(p) && Finish(j, p).Ok?
    ensures HasRoom(j)
  {
    var least := MinCls(j.fat);
    OnePassIsStraight(j, p);
    CapacityGalois(j, p.spf, least);
    OverheadMonotone(j, p.res, j.FatSectors(least), p.spf);
    var fit := (j.bpb.hugeSectors - p.start) / p.spc;
    DivBounds(j.bpb.hugeSectors - p.start, p.spc);
    MulMono(least, fit, p.spc);
  }

  lemma RoomIsAccepted(j: Job)
    requires Plain(j) && j.Reserved(0) >= j.need && HasRoom(j)
    ensures Solution(j).Ok?
  {
    var least, res := MinCls(j.fat), j.Reserved(0);
    var k := j.FatSectors(least);
    OverheadMonotone(j, res, 1, k);
    MulMono(0, least, j.Cluster(res));
    var p := OnePass(j, 0, 0).value;
    ComputedPass(j, p);
    EstimateReaches(j, p);
    CapacityGalois(j, p.spf, least);
    FatSectorsSmall(j, Min(p.estimate, MaxCls(j.fat)));
    DivAtLeast(j.bpb.hugeSectors - p.start, p.spc, least);
  }

  /** With room for the least number of clusters, the FAT comes out long enough for them and they fit behind it. */
  lemma EstimateReaches(j: Job, p: Pass)
    requires Plain(j) && HasRoom(j) && OnePass(j, 0, 0) == Ok(p)
    ensures p.spf >= j.FatSectors(MinCls(j.fat))
    ensures p.start + MinCls(j.fat) * p.spc <= j.bpb.hugeSectors
  {
    var least := MinCls(j.fat);
    var k := j.FatSectors(least);
    ComputedPass(j, p);
    if p.estimate >= least {
      FatSectorsMonotone(j, least, Min(p.estimate, MaxCls(j.fat)));
      MulMono(least, p.estimate, p.spc);
    } else if p.spf < k {
      OverheadMonotone(j, p.res, p.spf, k);
      MulMono(1, k - p.spf, j.bpb.fats);
      MulMono(p.estimate + 1, least, p.spc);
    } else {
      FatSectorsMonotone(j, p.estimate, least);
    }
  }

  /** Sixteen clusters short of the largest count, the FAT already describes more than the type allows. */
  lemma FullFat(j: Job, clusters: nat)
    requires j.Valid() && MaxCls(j.fat) - 16 <= clusters <= MaxCls(j.fat)
    ensures MaxCls(j.fat) < j.Capacity(j.FatSectors(clusters)) < TWO32
  {
    var rows := RowsBelowFull(j.fat, j.bpb.bytesPerSec);
    var k := j.FatSectors(clusters);
    LongerThan(j.E(), j.N(), RESFTE + MaxCls(j.fat) - 16, RESFTE + clusters, rows);
    MoreThan(j.E(), j.N(), MaxCls(j.fat) + RESFTE + 1, rows + 1, k);
    FatSectorsSmall(j, clusters);
  }

  lemma LongerThan(e: nat, n: nat, few: nat, entries: nat, rows: nat)
    requires n > 0 && few <= entries && rows * n < few * e
    ensures rows < HowMany(entries * e, n)
  {
    MulMono(few, entries, e);
    HowManyAbove(entries * e, n, rows);
  }

  lemma MoreThan(e: nat, n: nat, entries: nat, rows: nat, k: nat)
    requires e > 0 && rows <= k && entries * e <= rows * n
    ensures entries <= k * n / e
  {
    MulMono(rows, k, n);
    MulMono(0, k, n);
    DivAtLeast(k * n, e, entries);
  }

  /** One sector less than the largest FAT of each type. */
  function RowsBelowFull(fat: nat, bps: nat): (rows: nat)
    requires IsFat(fat) && IsBps(bps)
    ensures rows * (bps * NPB) < (RESFTE + MaxCls(fat) - 16) * (fat / BPN)
    ensures (rows + 1) * (bps * NPB) >= (MaxCls(fat) + RESFTE + 1) * (fat / BPN)
  {
    if fat == 12 then
      if bps == 512 then 11 else if bps == 1024 then 5 else if bps == 2048 then 2 else 1
    else if fat == 16 then
      if bps == 512 then 255 else if bps == 1024 then 127 else if bps == 2048 then 63 else 31
    else
      if bps == 512 then 0x1f_ffff else if bps == 1024 then 0xf_ffff else if bps == 2048 then 0x7_ffff else 0x3_ffff
  }

  /**
   The reader always gets the FAT type that was formatted when the FAT size is computed and
   alignment is off, whether the capacity clamp, the cut of line 596, or neither applies.
   */
  lemma ComputedTypeAgreement(j: Job, plan: Plan)
    requires Plain(j) && Solution(j) == Ok(plan)
    ensures CountAllowed(Stored(Seal(plan)), j.fat)
    ensures Reader.FatType(Stored(Seal(plan))) == j.fat
  {
    var p := FinalPass(j).value;
    var most := MaxCls(j.fat);
    PlainPass(j, p);
    ComputedPass(j, p);
    if j.bpb.hugeSectors - p.start >= (most + 1) * p.spc {
      ManyEstimated(j.bpb.hugeSectors - p.start, p.spc, j.bpb.fats, p.estimate, most);
      FullFat(j, Min(p.estimate, most));
    }
    TypeAgreement(j, plan, p);
  }

  /** A data area beyond the largest count was estimated to within sixteen clusters of it. */
  lemma ManyEstimated(room: nat, s: nat, f: nat, x: nat, most: nat)
    requires s >= 1 && f <= MAXNFT && room >= (most + 1) * s
    requires x <= most ==> room < (x + 1) * s + f
    ensures x >= most - 16
  {
    if x + 16 < most {
      MulMono(1, s, 17);
      MulMono(x + 18, most + 1, s);
      SplitOff(x + 1, 17, s);
    }
  }

  lemma SplitOff(a: nat, b: nat, s: nat)
    ensures (a + b) * s == a * s + b * s
  {
  }
}
