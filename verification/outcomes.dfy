/**
 What every accepted layout guarantees: capacity, alignment, stability under reformatting.
 Line numbers are those of mkfs_msdos.c.
 */
module Outcomes {
  import opened Machine
  import opened Fat
  import opened Wrappers
  import opened Layout
  import opened Defaults
  import opened Agreement
  import Reader

  /** Every cluster that was laid out has its whole entry, E nibbles from n * E, inside each FAT. */
  lemma EntriesFit(j: Job, plan: Plan, n: nat)
    requires j.Valid() && Solution(j) == Ok(plan)
    requires n <= plan.clusters + 1
    ensures (n + 1) * j.E() <= Reader.FatSize(Seal(plan)) * j.N()
  {
    SealedFields(j, plan);
    TotalBounds(j, FinalPass(j).value);
    EntriesWithin(j, plan.bpb.bigFatSecs, plan.clusters, n);
  }

  lemma EntriesWithin(j: Job, spf: nat, clusters: nat, n: nat)
    requires j.Valid() && 1 <= clusters <= j.Capacity(spf) && n <= clusters + 1
    ensures (n + 1) * j.E() <= spf * j.N()
  {
    EntryInside(spf * j.N(), j.E(), clusters, n);
  }

  lemma EntryInside(nibbles: nat, e: nat, clusters: nat, n: nat)
    requires e > 0 && clusters <= nibbles / e - RESFTE && n <= clusters + 1
    ensures (n + 1) * e <= nibbles
  {
    DivBounds(nibbles, e);
    MulMono(n + 1, nibbles / e, e);
  }

  /**
   ... and all its sectors inside the final total, which never grew. They are where the reader
   looks for them unless the reserved area is too large for its field.
   */
  lemma SectorsFit(j: Job, plan: Plan, n: nat)
    requires j.Valid() && Solution(j) == Ok(plan)
    requires 2 <= n <= plan.clusters + 1
    ensures Reader.ClusterSector(Seal(plan), n) + plan.bpb.secPerClust <= Reader.Total(Seal(plan)) <= j.bpb.hugeSectors
    ensures Reader.ClusterSector(Seal(plan), n) ==
            j.Overhead(plan.bpb.resSectors, plan.bpb.bigFatSecs) + (n - 2) * plan.bpb.secPerClust
    ensures Reader.ClusterSector(Stored(Seal(plan)), n) == Reader.ClusterSector(Seal(plan), n) <==>
              plan.bpb.resSectors <= MAXU16
  {
    var p := FinalPass(j).value;
    PassBounds(j, p);
    SealedFields(j, plan);
    TotalBounds(j, p);
    ClusterInside(j.Overhead(p.res, p.spf), p.start, plan.clusters, p.spc, plan.bpb.hugeSectors, n);
    StoredPlace(Seal(plan), n);
  }

  lemma ClusterInside(o: nat, start: nat, clusters: nat, s: nat, total: nat, n: nat)
    requires o <= start && start + clusters * s <= total && 2 <= n <= clusters + 1
    ensures o + (n - 2) * s + s <= total
  {
    MulMono(n - 1, clusters, s);
    assert (n - 1) * s == (n - 2) * s + s;
  }

  lemma StoredPlace(b: Bpb, n: nat)
    requires b.bytesPerSec > 0 && n >= 2
    ensures Reader.ClusterSector(Stored(b), n) == Reader.ClusterSector(b, n) <==> b.resSectors <= MAXU16
  {
    assert Reader.FirstData(Stored(b)) == Reader.FirstData(b) - b.resSectors + b.resSectors % 0x1_0000;
  }

  /** Of two cluster sizes the smaller divides the larger. */
  lemma SpcDivides(a: nat, b: nat)
    requires IsSpc(a) && IsSpc(b) && a <= b
    ensures b % a == 0
  {
  }

  lemma ClusterAntitone(j: Job, res: nat, more: nat)
    requires j.Valid() && res <= more
    ensures j.Cluster(more) <= j.Cluster(res)
  {
    if j.bpb.secPerClust == 0 {
      DoubledAntitone(j.Overhead(res, j.FatSectors(MaxCls(j.fat))), j.Overhead(more, j.FatSectors(MaxCls(j.fat))),
                      MaxCls(j.fat) + 1, j.bpb.hugeSectors,
                      HowMany(if j.fat == 16 then DEFBLK16 else DEFBLK, j.bpb.bytesPerSec));
    }
  }

  /**
   Alignment never fails: with it on and the reserved area free to grow, the root directory
   (or, on FAT32, cluster 2) starts on a cluster boundary, so the warning of line 579 is dead.
   */
  lemma AlwaysAligned(j: Job, p: Pass)
    requires j.Valid() && j.align && j.bpb.resSectors == 0 && FinalPass(j) == Ok(p)
    ensures p.skew == 0 && (p.res + j.FatArea(p.spf)) % p.spc == 0
  {
    var a := OnePass(j, 0, j.bpb.bigFatSecs).value;
    PassParts(j, 0, j.bpb.bigFatSecs, a);
    if a.skew != 0 {
      PassParts(j, a.spc - a.skew, a.spf, p);
      ClusterAntitone(j, a.res, p.res);
      SpcDivides(p.spc, a.spc);
      var x := a.res + j.FatArea(a.spf);
      PaddingAligns(x, a.spc, p.spc);
      assert p.res + j.FatArea(p.spf) == x + (a.spc - x % a.spc);
    }
  }

  /** The choices of a pass that is free to size the reserved area. */
  lemma PassParts(j: Job, extra: nat, spf: nat, p: Pass)
    requires j.Valid() && j.bpb.resSectors == 0 && OnePass(j, extra, spf) == Ok(p)
    ensures p.res == j.Reserved(0) + extra && p.spc == j.Cluster(p.res) && (spf != 0 ==> p.spf == spf)
    ensures p.skew == (p.res + j.FatArea(p.spf)) % p.spc
  {
  }

  /** Rounding up to a multiple of s also gives a multiple of every divisor of s. */
  lemma PaddingAligns(x: nat, s: nat, t: nat)
    requires s > 0 && t > 0 && s % t == 0
    ensures (x + (s - x % s)) % t == 0
  {
    var q, r := x / s + 1, s / t;
    assert x + (s - x % s) == q * s;
    assert s == r * t;
    assert q * s == q * r * t;
    DivUnique(q * r * t, t, q * r);
  }

  /** The job of formatting the finished volume again with everything it chose given explicitly. */
  function Again(j: Job, plan: Plan): Job {
    j.(bpb := plan.bpb)
  }

  /** With every choice given, one pass takes them as they are. */
  lemma GivenPass(k: Job)
    requires k.Valid() && k.bpb.resSectors >= k.need && k.bpb.secPerClust != 0 && k.bpb.bigFatSecs != 0
    requires k.fat != 32 ==> k.bpb.bigFatSecs <= MAXU16
    requires k.Overhead(k.bpb.resSectors, k.bpb.bigFatSecs) <= k.bpb.hugeSectors
    ensures FinalPass(k).Ok?
    ensures var p := FinalPass(k).value;
            && p.res == k.bpb.resSectors && p.spc == k.bpb.secPerClust && p.spf == k.bpb.bigFatSecs
            && p.start == k.Overhead(p.res, p.spf)
  {
  }

  /** Formatting again with the chosen values, on the volume the first run left, changes nothing. */
  lemma LayoutIsStable(j: Job, plan: Plan)
    requires j.Valid() && Solution(j) == Ok(plan) && !j.align
    ensures Again(j, plan).Valid() && Solution(Again(j, plan)) == Ok(plan)
  {
    var p, k := FinalPass(j).value, Again(j, plan);
    PlanBounds(j, plan);
    OnePassIsStraight(j, p);
    PassBounds(j, p);
    TotalBounds(j, p);
    MulMono(0, plan.clusters, p.spc);
    SameGeometry(j, k, p.res, p.spf);
    GivenPass(k);
    SameFinish(j, p, plan, FinalPass(k).value);
  }

  lemma SameFinish(j: Job, p: Pass, plan: Plan, q: Pass)
    requires j.Valid() && p.start <= j.bpb.hugeSectors && p.spc > 0 && Finish(j, p) == Ok(plan)
    requires Again(j, plan).Valid() && q.res == p.res && q.spc == p.spc && q.spf == p.spf && q.start == p.start
    requires MinCls(j.fat) <= plan.clusters
    ensures q.start <= plan.bpb.hugeSectors && Finish(Again(j, plan), q) == Ok(plan)
  {
    SecondCount(p.start, j.bpb.hugeSectors, p.spc, Wrap32(j.Capacity(p.spf)), MaxCls(j.fat), plan.bpb.hugeSectors);
    SameGeometry(j, Again(j, plan), p.res, p.spf);
  }

  lemma SameGeometry(j: Job, k: Job, res: nat, spf: nat)
    requires j.Valid() && k.fat == j.fat && k.bpb.bytesPerSec == j.bpb.bytesPerSec
    requires k.bpb.fats == j.bpb.fats && k.bpb.rootDirEnts == j.RootDirEnts()
    ensures k.Overhead(res, spf) == j.Overhead(res, spf) && k.Capacity(spf) == j.Capacity(spf)
  {
  }

  /** Counting the cut volume again gives the same clusters and no further cut. */
  lemma SecondCount(start: nat, huge: nat, s: nat, cap: nat, most: nat, total: nat)
    requires start <= huge && s >= 1
    requires var fit := (huge - start) / s;
             total == if Min(fit, cap) > most then start + (most + 1) * s - 1 else huge
    ensures start <= total
    ensures Min((total - start) / s, cap) == Min(Min((huge - start) / s, cap), most)
  {
    if Min((huge - start) / s, cap) > most {
      MulMono(0, most, s);
      assert (most + 1) * s == most * s + s;
      DivUnique(total - start, s, most);
    }
  }

  /** An accepted FAT32 volume is always too large for the 16-bit total, which is therefore zero. */
  lemma Fat32TotalIsLarge(j: Job, plan: Plan)
    requires j.Valid() && j.fat == 32 && Solution(j) == Ok(plan)
    ensures plan.bpb.hugeSectors > MAXU16
    ensures Seal(plan).sectors == 0 && Seal(plan).hugeSectors == plan.bpb.hugeSectors
  {
    var p := FinalPass(j).value;
    PassBounds(j, p);
    TotalBounds(j, p);
    SealedFields(j, plan);
    EntriesFit(j, plan, plan.clusters + 1);
    MulMono(1, p.spc, plan.clusters);
    if p.spf < 64 {
      MulMono(p.spf, 63, j.N());
    }
  }
}
