/**
 The layout as the world sees it: what a reader derives from the finished parameter block.
 Line numbers are those of mkfs_msdos.c.
 */
module Agreement {
  import opened Machine
  import opened Fat
  import opened Wrappers
  import opened Layout
  import Reader

  /** Lines 604-615: the media default, the root cluster and the fold into the 16-bit fields. */
  function Seal(plan: Plan): Bpb {
    var b := plan.bpb.(
             media := if plan.bpb.media != 0 then plan.bpb.media else if plan.bpb.hiddenSecs == 0 then 0xf0 else 0xf8,
             rootClust := if plan.fat == 32 then RESFTE else plan.bpb.rootClust);
    var c := if b.hugeSectors <= MAXU16 then b.(sectors := b.hugeSectors, hugeSectors := 0) else b;
    if plan.fat != 32 then c.(fatSecs := c.bigFatSecs, bigFatSecs := 0) else c
  }

  /** The layout thought the clusters begin where the reader finds them. */
  predicate Straight(j: Job, p: Pass)
    requires j.Valid()
  {
    p.start == j.Overhead(p.res, p.spf)
  }

  /** Without alignment there is one pass, and it is straight. */
  lemma OnePassIsStraight(j: Job, p: Pass)
    requires j.Valid() && !j.align && FinalPass(j) == Ok(p)
    ensures Straight(j, p) && OnePass(j, 0, j.bpb.bigFatSecs) == Ok(p)
  {
    if j.bpb.bigFatSecs == 0 {
      ComputedPass(j, p);
    }
  }

  lemma UnalignedReserve(j: Job, plan: Plan)
    requires j.Valid() && !j.align && Solution(j) == Ok(plan)
    ensures plan.bpb.resSectors == j.Reserved(0)
  {
    OnePassIsStraight(j, FinalPass(j).value);
  }

  /** Bounds that every pass kept by the loop obeys. */
  lemma PassBounds(j: Job, p: Pass)
    requires j.Valid() && FinalPass(j) == Ok(p)
    ensures j.Overhead(p.res, p.spf) <= p.start <= j.bpb.hugeSectors
    ensures j.need <= p.res && j.need + p.spf <= p.start
    ensures 1 <= p.spf < TWO32 && (j.fat != 32 ==> p.spf <= MAXU16)
    ensures IsSpc(p.spc) && (!j.align ==> p.res <= MAXU16)
  {
    FatAreaSplit(j, p.spf);
    MulMono(1, j.bpb.fats, p.spf);
    var a := OnePass(j, 0, j.bpb.bigFatSecs).value;
    FatSectorsSmall(j, Min(a.estimate, MaxCls(j.fat)));
    if j.bpb.bigFatSecs == 0 {
      ComputedPass(j, a);
    }
  }

  lemma FatSectorsSmall(j: Job, clusters: nat)
    requires j.Valid() && clusters <= MaxCls(j.fat)
    ensures j.fat != 32 ==> j.FatSectors(clusters) <= 0x100
    ensures j.Capacity(j.FatSectors(clusters)) < TWO32
  {
    var need := (RESFTE + clusters) * j.E();
    var k := j.FatSectors(clusters);
    MulMono(RESFTE + clusters, RESFTE + MaxCls(j.fat), j.E());
    if j.fat != 32 {
      HowManyAtMost(need, j.N(), 0x100);
    }
    assert k * j.N() < need + j.N();
    DivBelow(k * j.N(), j.E(), TWO32);
  }

  /** Dividing bytes by the sector size is dividing entries by the entries of a sector. */
  lemma RootSectorsAgree(bps: nat, rde: nat)
    requires IsBps(bps)
    ensures (rde * 32 + (bps - 1)) / bps == HowMany(rde, bps / DIRENT)
  {
    var r := HowMany(rde, bps / DIRENT);
    assert (r - 1) * (bps / DIRENT) * 32 == (r - 1) * bps && r * (bps / DIRENT) * 32 == r * bps by {
      Scaled(r - 1, bps / DIRENT, bps);
      Scaled(r, bps / DIRENT, bps);
    }
    DivUnique(rde * 32 + (bps - 1), bps, r);
  }

  lemma Scaled(r: int, s: nat, bps: nat)
    requires bps == s * 32
    ensures r * s * 32 == r * bps
  {
  }

  /** The total that lines 595-598 leave. */
  function CutTotal(start: nat, huge: nat, s: nat, cap: nat, most: nat): nat
    requires start <= huge && s >= 1
  {
    MulMono(1, most + 1, s);
    if Min((huge - start) / s, cap) > most then start + (most + 1) * s - 1 else huge
  }

  /** The clusters there is room for, and those the FAT describes, as lines 581-585 see them. */
  function Fit(j: Job, p: Pass): nat
    requires p.start <= j.bpb.hugeSectors && p.spc > 0
  {
    (j.bpb.hugeSectors - p.start) / p.spc
  }

  function Cap(j: Job, p: Pass): nat
    requires j.Valid()
  {
    Wrap32(j.Capacity(p.spf))
  }

  /** The clusters and the total that lines 581-599 settle on. */
  lemma FinishParts(j: Job, p: Pass, plan: Plan)
    requires j.Valid() && p.start <= j.bpb.hugeSectors && p.spc > 0 && Finish(j, p) == Ok(plan)
    ensures plan.bpb == j.bpb.(resSectors := p.res, secPerClust := p.spc, rootDirEnts := j.RootDirEnts(),
                               bigFatSecs := p.spf, hugeSectors := plan.bpb.hugeSectors)
    ensures MinCls(j.fat) <= Min(Fit(j, p), Cap(j, p))
    ensures plan.clusters == Min(Min(Fit(j, p), Cap(j, p)), MaxCls(j.fat))
    ensures plan.bpb.hugeSectors == CutTotal(p.start, j.bpb.hugeSectors, p.spc, Cap(j, p), MaxCls(j.fat))
  {
  }

  /** A cut volume is not larger than it was, and holds the clusters that are left. */
  lemma CutBounds(start: nat, huge: nat, s: nat, cap: nat, most: nat)
    requires start <= huge && s >= 1
    ensures start + Min(Min((huge - start) / s, cap), most) * s <= CutTotal(start, huge, s, cap, most) <= huge
  {
    var fit := (huge - start) / s;
    DivBounds(huge - start, s);
    MulMono(Min(Min(fit, cap), most), fit, s);
    if Min(fit, cap) > most {
      MulMono(most + 1, fit, s);
      assert (most + 1) * s == most * s + s;
    }
  }

  /** The final total is not larger than the volume, and holds the laid-out clusters. */
  lemma TotalBounds(j: Job, p: Pass)
    requires j.Valid() && p.start <= j.bpb.hugeSectors && p.spc > 0 && Finish(j, p).Ok?
    ensures var plan := Finish(j, p).value;
            && MinCls(j.fat) <= plan.clusters <= MaxCls(j.fat)
            && plan.clusters <= j.Capacity(p.spf)
            && p.start + plan.clusters * p.spc <= plan.bpb.hugeSectors <= j.bpb.hugeSectors
  {
    FinishParts(j, p, Finish(j, p).value);
    CutBounds(p.start, j.bpb.hugeSectors, p.spc, Cap(j, p), MaxCls(j.fat));
  }

  /** The fields a layout fills in are in range, and it changes no others. */
  predicate InBounds(j: Job, plan: Plan)
    requires j.Valid()
  {
    && plan.fat == j.fat && plan.rootSectors == j.RootSectors()
    && plan.bpb == j.bpb.(resSectors := plan.bpb.resSectors, secPerClust := plan.bpb.secPerClust,
                          rootDirEnts := j.RootDirEnts(), bigFatSecs := plan.bpb.bigFatSecs,
                          hugeSectors := plan.bpb.hugeSectors)
    && j.need <= plan.bpb.resSectors
    && IsSpc(plan.bpb.secPerClust)
    && 1 <= plan.bpb.bigFatSecs < TWO32 && (j.fat != 32 ==> plan.bpb.bigFatSecs <= MAXU16)
    && 1 <= plan.bpb.hugeSectors <= j.bpb.hugeSectors
  }

  lemma PlanBounds(j: Job, plan: Plan)
    requires j.Valid() && Solution(j) == Ok(plan)
    ensures InBounds(j, plan)
    ensures !j.align ==> plan.bpb.resSectors <= MAXU16
  {
    var p := FinalPass(j).value;
    PassBounds(j, p);
    FinishBounds(j, p, plan);
  }

  lemma FinishBounds(j: Job, p: Pass, plan: Plan)
    requires j.Valid() && j.need <= p.res && j.need + p.spf <= p.start <= j.bpb.hugeSectors && IsSpc(p.spc)
    requires 1 <= p.spf < TWO32 && (j.fat != 32 ==> p.spf <= MAXU16) && Finish(j, p) == Ok(plan)
    ensures InBounds(j, plan) && plan.bpb.resSectors == p.res
  {
    TotalBounds(j, p);
    FinishParts(j, p, plan);
    MulMono(0, plan.clusters, p.spc);
  }

  lemma SealedBlock(j: Job, plan: Plan)
    requires j.Valid() && InBounds(j, plan)
    ensures Reader.FatSize(Seal(plan)) == plan.bpb.bigFatSecs
    ensures Reader.Total(Seal(plan)) == plan.bpb.hugeSectors
    ensures Reader.RootDirSectors(Seal(plan)) == plan.rootSectors
    ensures Reader.FirstData(Seal(plan)) == j.Overhead(plan.bpb.resSectors, plan.bpb.bigFatSecs)
  {
    RootSectorsAgree(plan.bpb.bytesPerSec, plan.bpb.rootDirEnts);
    assert plan.bpb.fats * plan.bpb.bigFatSecs == j.FatArea(plan.bpb.bigFatSecs);
  }

  /**
   What the header holds: everything the layout settled, with the total and the FAT size in the one
   field each that is large enough, and a media byte for what is left open: 0xf0 for a disk without
   hidden sectors, 0xf8 for a partition.
   */
  lemma SealedHeader(j: Job, plan: Plan)
    requires j.Valid() && Solution(j) == Ok(plan)
    ensures var b, was := Seal(plan), plan.bpb;
            && b == was.(media := b.media, sectors := b.sectors, hugeSectors := b.hugeSectors,
                         fatSecs := b.fatSecs, bigFatSecs := b.bigFatSecs, rootClust := b.rootClust)
            && (was.media != 0 ==> b.media == was.media)
            && (was.media == 0 ==>
                  (b.media == 0xf0 <==> was.hiddenSecs == 0) && (b.media == 0xf8 <==> was.hiddenSecs > 0))
            && (if was.hugeSectors < 0x1_0000 then b.sectors == was.hugeSectors && b.hugeSectors == 0
                else b.sectors == 0 && b.hugeSectors == was.hugeSectors)
            && (if plan.fat == 32 then b.fatSecs == 0 && b.bigFatSecs == was.bigFatSecs && b.rootClust == 2
                else b.fatSecs == was.bigFatSecs <= MAXU16 && b.bigFatSecs == 0 && b.rootClust == 0)
  {
    PlanBounds(j, plan);
  }

  /** The reader's sector counts are the layout's, whichever fields they were folded into. */
  lemma SealedFields(j: Job, plan: Plan)
    requires j.Valid() && Solution(j) == Ok(plan)
    ensures Reader.FatSize(Seal(plan)) == plan.bpb.bigFatSecs
    ensures Reader.Total(Seal(plan)) == plan.bpb.hugeSectors
    ensures Reader.RootDirSectors(Seal(plan)) == plan.rootSectors
    ensures Reader.FirstData(Seal(plan)) == j.Overhead(plan.bpb.resSectors, plan.bpb.bigFatSecs)
  {
    PlanBounds(j, plan);
    SealedBlock(j, plan);
  }

  /** The cluster arithmetic of lines 581-599 against a reader that divides the same volume from `o` on. */
  lemma CutCount(o: nat, start: nat, huge: nat, s: nat, cap: nat, least: nat, most: nat, total: nat)
    requires o <= start <= huge && s >= 1 && least <= most
    requires least <= Min((huge - start) / s, cap) && total == CutTotal(start, huge, s, cap, most)
    ensures o <= total && least <= (total - o) / s
    ensures (total - o) / s <= most <==> huge - o < (most + 1) * s || (start == o && cap > most)
    ensures var fit := (huge - start) / s;
            ((total - o) / s == Min(Min(fit, cap), most) <==>
              if Min(fit, cap) > most then start == o else fit <= cap && (huge - o) / s == fit)
  {
    var fit := (huge - start) / s;
    DivMonotone(huge - start, huge - o, s);
    DivBelowExactly(huge - start, s, most + 1);
    DivBelowExactly(huge - o, s, most + 1);
    if Min(fit, cap) > most {
      CutQuotient(o, start, s, most);
    }
  }

  /** Of a cut volume the reader counts one cluster more for every cluster size begun between o and start. */
  lemma CutQuotient(o: nat, start: nat, s: nat, most: nat)
    requires o <= start && s >= 1
    ensures start + (most + 1) * s - 1 - o >= 0
    ensures (start + (most + 1) * s - 1 - o) / s == most + HowMany(start - o, s)
  {
    var more := HowMany(start - o, s);
    assert (most + 1) * s == most * s + s && (most + more) * s == most * s + more * s;
    assert (more - 1) * s == more * s - s;
    DivUnique(start + (most + 1) * s - 1 - o, s, most + more);
  }

  /** Where the header on the disk says the clusters begin. */
  function SeenStart(j: Job, p: Pass): nat
    requires j.Valid()
  {
    j.Overhead(p.res % 0x1_0000, p.spf)
  }

  lemma SeenCount(j: Job, plan: Plan, p: Pass)
    requires j.Valid() && IsSpc(p.spc) && plan.bpb.secPerClust == p.spc && plan.bpb.resSectors == p.res
    requires IsBps(plan.bpb.bytesPerSec) && Reader.Total(Seal(plan)) == plan.bpb.hugeSectors
    requires Reader.FirstData(Seal(plan)) == j.Overhead(p.res, p.spf)
    ensures SeenStart(j, p) <= j.Overhead(p.res, p.spf)
    ensures Reader.Clusters(Stored(Seal(plan))) == (plan.bpb.hugeSectors - SeenStart(j, p)) / p.spc
  {
    assert Reader.FirstData(Stored(Seal(plan))) == Reader.FirstData(Seal(plan)) - p.res + p.res % 0x1_0000;
  }

  /** All that the agreement rests on. */
  predicate Counted(j: Job, plan: Plan, p: Pass)
    requires j.Valid()
  {
    && IsSpc(p.spc) && SeenStart(j, p) <= p.start <= j.bpb.hugeSectors && Finish(j, p) == Ok(plan)
    && Reader.Clusters(Stored(Seal(plan))) == (plan.bpb.hugeSectors - SeenStart(j, p)) / p.spc
  }

  /** What the reader divides to count clusters, and the cut that produced it. */
  lemma ReaderCount(j: Job, plan: Plan, p: Pass)
    requires j.Valid() && FinalPass(j) == Ok(p) && Solution(j) == Ok(plan)
    ensures Counted(j, plan, p)
  {
    PassBounds(j, p);
    SealedFields(j, plan);
    FinishParts(j, p, plan);
    SeenCount(j, plan, p);
  }

  /** The reader finds a cluster count that the FAT type allows. */
  predicate CountAllowed(b: Bpb, fat: nat)
    requires b.bytesPerSec > 0 && b.secPerClust > 0
  {
    MinCls(fat) <= Reader.Clusters(b) <= MaxCls(fat)
  }

  lemma CountedType(j: Job, plan: Plan, p: Pass)
    requires j.Valid() && Counted(j, plan, p)
    ensures MinCls(j.fat) <= Reader.Clusters(Stored(Seal(plan)))
    ensures Reader.Clusters(Stored(Seal(plan))) <= MaxCls(j.fat) <==>
              || j.bpb.hugeSectors - SeenStart(j, p) < (MaxCls(j.fat) + 1) * p.spc
              || (p.start == SeenStart(j, p) && Cap(j, p) > MaxCls(j.fat))
    ensures Reader.Clusters(Stored(Seal(plan))) == plan.clusters <==>
              if Min(Fit(j, p), Cap(j, p)) > MaxCls(j.fat) then p.start == SeenStart(j, p)
              else Fit(j, p) <= Cap(j, p) && (j.bpb.hugeSectors - SeenStart(j, p)) / p.spc == Fit(j, p)
  {
    FinishParts(j, p, plan);
    CutCount(SeenStart(j, p), p.start, j.bpb.hugeSectors, p.spc, Cap(j, p),
             MinCls(j.fat), MaxCls(j.fat), plan.bpb.hugeSectors);
  }

  /**
   FAT type agreement, for every accepted layout: given or computed FAT size, aligned or not.
   The reader's cluster count suits the FAT type exactly when the volume has no more sectors
   behind the start the reader sees than the type allows, or the loop had the clusters begin
   there too and the FAT is large enough for the cut of line 596 to happen.
   */
  lemma TypeAgreement(j: Job, plan: Plan, p: Pass)
    requires j.Valid() && FinalPass(j) == Ok(p) && Solution(j) == Ok(plan)
    ensures CountAllowed(Stored(Seal(plan)), j.fat) <==>
              || j.bpb.hugeSectors - SeenStart(j, p) < (MaxCls(j.fat) + 1) * p.spc
              || (p.start == SeenStart(j, p) && Cap(j, p) > MaxCls(j.fat))
    ensures Reader.Clusters(Stored(Seal(plan))) >= MinCls(j.fat)
    ensures CountAllowed(Stored(Seal(plan)), j.fat) ==> Reader.FatType(Stored(Seal(plan))) == j.fat
    ensures j.fat != 32 && Reader.FatType(Stored(Seal(plan))) == j.fat ==> CountAllowed(Stored(Seal(plan)), j.fat)
  {
    ReaderCount(j, plan, p);
    CountedType(j, plan, p);
  }

  /**
   Count agreement, for every accepted layout: the reader counts exactly the clusters that were
   laid out if a cut volume begins where the reader thinks, or if in an uncut one the FAT was
   not the limit and the sectors in between make up no cluster.
   */
  lemma CountAgreement(j: Job, plan: Plan, p: Pass)
    requires j.Valid() && FinalPass(j) == Ok(p) && Solution(j) == Ok(plan)
    ensures SeenStart(j, p) <= p.start <= j.bpb.hugeSectors
    ensures Reader.Clusters(Stored(Seal(plan))) == plan.clusters <==>
              if Min(Fit(j, p), Cap(j, p)) > MaxCls(j.fat) then p.start == SeenStart(j, p)
              else Fit(j, p) <= Cap(j, p) && (j.bpb.hugeSectors - SeenStart(j, p)) / p.spc == Fit(j, p)
  {
    ReaderCount(j, plan, p);
    CountedType(j, plan, p);
  }

  /** And every cluster the reader counts has an entry in the FAT exactly when this holds. */
  lemma EntryAgreement(j: Job, plan: Plan, p: Pass)
    requires j.Valid() && FinalPass(j) == Ok(p) && Solution(j) == Ok(plan)
    ensures SeenStart(j, p) <= p.start <= j.bpb.hugeSectors
    ensures Reader.Clusters(Stored(Seal(plan))) <= j.Capacity(p.spf) <==>
              if Min(Fit(j, p), Cap(j, p)) > MaxCls(j.fat) then
                MaxCls(j.fat) + HowMany(p.start - SeenStart(j, p), p.spc) <= j.Capacity(p.spf)
              else (j.bpb.hugeSectors - SeenStart(j, p)) / p.spc <= j.Capacity(p.spf)
  {
    ReaderCount(j, plan, p);
    CountedEntries(j, plan, p);
  }

  lemma CountedEntries(j: Job, plan: Plan, p: Pass)
    requires j.Valid() && Counted(j, plan, p)
    ensures Reader.Clusters(Stored(Seal(plan))) ==
            if Min(Fit(j, p), Cap(j, p)) > MaxCls(j.fat) then
              MaxCls(j.fat) + HowMany(p.start - SeenStart(j, p), p.spc)
            else (j.bpb.hugeSectors - SeenStart(j, p)) / p.spc
  {
    FinishParts(j, p, plan);
    CutQuotient(SeenStart(j, p), p.start, p.spc, MaxCls(j.fat));
  }

  /** Sectors per FAT: what was given, or what the estimate of the first pass asks for. */
  function FatLength(j: Job): nat
    requires j.Valid() && j.Overhead(j.Reserved(0), 1) <= j.bpb.hugeSectors
  {
    if j.bpb.bigFatSecs != 0 then j.bpb.bigFatSecs
    else
      var room := j.bpb.hugeSectors - j.Overhead(j.Reserved(0), 1);
      j.FatSectors(Min(Estimate(room, j.Cluster(j.Reserved(0)), j.N(), j.FatArea(j.E())), MaxCls(j.fat)))
  }

  lemma PlainPass(j: Job, p: Pass)
    requires j.Valid() && !j.align && FinalPass(j) == Ok(p)
    ensures p.res == j.Reserved(0) <= MAXU16 && p.spc == j.Cluster(j.Reserved(0))
    ensures j.Overhead(j.Reserved(0), 1) <= j.bpb.hugeSectors && p.spf == FatLength(j)
    ensures p.start == SeenStart(j, p) == j.Overhead(j.Reserved(0), FatLength(j))
  {
    OnePassIsStraight(j, p);
    if j.bpb.bigFatSecs != 0 {
      MulMono(1, j.bpb.bigFatSecs, j.bpb.fats);
    }
  }

  /** The same with alignment off, in terms of what was asked for alone. */
  lemma PlainAgreement(j: Job, plan: Plan)
    requires j.Valid() && !j.align && Solution(j) == Ok(plan)
    ensures j.Overhead(j.Reserved(0), 1) <= j.bpb.hugeSectors
    ensures var start, spc := j.Overhead(j.Reserved(0), FatLength(j)), j.Cluster(j.Reserved(0));
            var cap, most := Wrap32(j.Capacity(FatLength(j))), MaxCls(j.fat);
            && start <= j.bpb.hugeSectors
            && (CountAllowed(Stored(Seal(plan)), j.fat) <==> j.bpb.hugeSectors - start < (most + 1) * spc || cap > most)
            && (Reader.Clusters(Stored(Seal(plan))) == plan.clusters <==>
                  (j.bpb.hugeSectors - start) / spc <= cap || cap > most)
            && (Reader.Clusters(Stored(Seal(plan))) <= j.Capacity(FatLength(j)) <==>
                  (j.bpb.hugeSectors - start) / spc <= j.Capacity(FatLength(j)) || cap > most)
  {
    var p := FinalPass(j).value;
    PlainPass(j, p);
    ReaderCount(j, plan, p);
    CountedType(j, plan, p);
    CountedEntries(j, plan, p);
  }
}
