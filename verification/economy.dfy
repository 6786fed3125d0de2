/**
 How little of the volume a layout gives away, and that it gives away nothing that was asked for.
 Line numbers are those of mkfs_msdos.c.
 */
module Economy {
  import opened Machine
  import opened Fat
  import opened Wrappers
  import opened Layout
  import opened Agreement
  import opened Sizing
  import opened Requested

  /** So many clusters are allowed, have entries in the FAT, and fit behind the start. */
  predicate Possible(j: Job, clusters: nat)
    requires Begins(j)
  {
    && clusters <= MaxCls(j.fat) && clusters <= Wrap32(j.Capacity(FatLength(j)))
    && Start(j) + clusters * j.Cluster(Reserve(j)) <= j.bpb.hugeSectors
  }

  /** A layout has as many clusters as are possible. */
  lemma ClustersAreMost(j: Job, plan: Plan)
    requires j.Valid() && Solution(j) == Ok(plan)
    ensures Begins(j) && Possible(j, plan.clusters)
    ensures forall n: nat :: Possible(j, n) ==> n <= plan.clusters
  {
    var p := FinalPass(j).value;
    LastPass(j, p);
    FinishParts(j, p, plan);
    MostFit(j.bpb.hugeSectors - p.start, p.spc, plan.clusters);
    forall n: nat | Possible(j, n) ensures n <= plan.clusters {
      PossibleFits(j, n);
    }
  }

  lemma PossibleFits(j: Job, n: nat)
    requires Begins(j) && Start(j) <= j.bpb.hugeSectors && Possible(j, n)
    ensures n <= (j.bpb.hugeSectors - Start(j)) / j.Cluster(Reserve(j))
  {
    DivAtLeast(j.bpb.hugeSectors - Start(j), j.Cluster(Reserve(j)), n);
  }

  lemma MostFit(room: nat, s: nat, n: nat)
    requires s > 0 && n <= room / s
    ensures n * s <= room
  {
    DivBounds(room, s);
    MulMono(n, room / s, s);
  }

  /**
   The total is cut exactly when both the sectors and the FAT would do for more clusters than the
   type allows, and then to the last sector that does not make one more.
   */
  lemma CutExactly(j: Job, plan: Plan)
    requires j.Valid() && Solution(j) == Ok(plan)
    ensures Begins(j)
    ensures var more := Start(j) + (MaxCls(j.fat) + 1) * j.Cluster(Reserve(j));
            if more <= j.bpb.hugeSectors && MaxCls(j.fat) < Wrap32(j.Capacity(FatLength(j))) then
              plan.bpb.hugeSectors + 1 == more
            else plan.bpb.hugeSectors == j.bpb.hugeSectors
  {
    var p := FinalPass(j).value;
    LastPass(j, p);
    FinishParts(j, p, plan);
    DivBelowExactly(j.bpb.hugeSectors - p.start, p.spc, MaxCls(j.fat) + 1);
  }

  /**
   A computed FAT is exactly as long as the clusters of the volume need, or, if a second pass made
   room for the padding, at least that long.
   */
  lemma FatIsExact(j: Job, plan: Plan)
    requires j.Valid() && j.bpb.bigFatSecs == 0 && Solution(j) == Ok(plan)
    ensures Begins(j) && j.FatSectors(plan.clusters) <= plan.bpb.bigFatSecs
    ensures Padding(j) == 0 ==> plan.bpb.bigFatSecs == j.FatSectors(plan.clusters)
  {
    var p := FinalPass(j).value;
    LastPass(j, p);
    PassBounds(j, p);
    TotalBounds(j, p);
    FinishParts(j, p, plan);
    CapacityGalois(j, p.spf, plan.clusters);
    if Padding(j) == 0 {
      PaddingIs(j, OnePass(j, 0, 0).value);
      EstimateIsReached(j, p, plan);
    }
  }

  lemma EstimateIsReached(j: Job, p: Pass, plan: Plan)
    requires j.Valid() && j.bpb.bigFatSecs == 0 && OnePass(j, 0, 0) == Ok(p) && p.start <= j.bpb.hugeSectors
    requires plan.clusters == Min(Min(Fit(j, p), Cap(j, p)), MaxCls(j.fat))
    ensures p.spf <= j.FatSectors(plan.clusters)
  {
    var m := Min(p.estimate, MaxCls(j.fat));
    ComputedPass(j, p);
    ComputedFacts(j, p);
    DivAtLeast(j.bpb.hugeSectors - p.start, p.spc, p.estimate);
    FatSectorsSmall(j, m);
    if m >= 1 {
      CapacityGalois(j, p.spf, m);
    }
    FatSectorsMonotone(j, m, plan.clusters);
  }

  /** Every field that was asked for is kept, and the FAT type; a root directory left open gets 512 entries. */
  lemma RequestsAreKept(j: Job, plan: Plan)
    requires j.Valid() && Solution(j) == Ok(plan)
    ensures plan.fat == j.fat
    ensures plan.bpb == j.bpb.(resSectors := plan.bpb.resSectors, secPerClust := plan.bpb.secPerClust,
                               rootDirEnts := plan.bpb.rootDirEnts, bigFatSecs := plan.bpb.bigFatSecs,
                               hugeSectors := plan.bpb.hugeSectors)
    ensures j.bpb.resSectors != 0 ==> plan.bpb.resSectors == j.bpb.resSectors
    ensures j.bpb.secPerClust != 0 ==> plan.bpb.secPerClust == j.bpb.secPerClust
    ensures j.bpb.bigFatSecs != 0 ==> plan.bpb.bigFatSecs == j.bpb.bigFatSecs
    ensures plan.bpb.rootDirEnts == if j.bpb.rootDirEnts == 0 && j.fat != 32 then 512 else j.bpb.rootDirEnts
    ensures plan.bpb.hugeSectors <= j.bpb.hugeSectors
  {
    var p := FinalPass(j).value;
    LastPass(j, p);
    FinishParts(j, p, plan);
    PlanBounds(j, plan);
  }
}
