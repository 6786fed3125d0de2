/**
 The outcome of the layout in terms of what was asked for alone, for every job: given or computed
 FAT size, aligned or not.
 Line numbers are those of mkfs_msdos.c.
 */
module Requested {
  import opened Machine
  import opened Fat
  import opened Wrappers
  import opened Layout
  import opened Agreement
  import opened Sizing
  import Reader

  /** The least a layout needs: the reserved sectors, the root directory and one sector per FAT. */
  predicate Begins(j: Job) {
    j.Valid() && j.Overhead(j.Reserved(0), 1) <= j.bpb.hugeSectors
  }

  /** Sectors by which alignment lengthens the reserved area. */
  function Padding(j: Job): (x: nat)
    requires Begins(j)
    ensures x < j.Cluster(j.Reserved(0))
  {
    var spc := j.Cluster(j.Reserved(0));
    var skew := (j.Reserved(0) + j.FatArea(FatLength(j))) % spc;
    if j.align && j.bpb.resSectors == 0 && skew != 0 then spc - skew else 0
  }

  function Reserve(j: Job): nat
    requires Begins(j)
  {
    j.Reserved(0) + Padding(j)
  }

  /** A second pass has taken a computed FAT for a given one and counts its sectors, but the first, twice. */
  function CountedTwice(j: Job): nat
    requires Begins(j)
  {
    if Padding(j) != 0 && j.bpb.bigFatSecs == 0 then j.FatArea(FatLength(j) - 1) else 0
  }

  /** Where the layout has the clusters begin, and where the header on the disk says they do. */
  function Start(j: Job): nat
    requires Begins(j)
  {
    j.Overhead(Reserve(j), FatLength(j)) + CountedTwice(j)
  }

  function Seen(j: Job): nat
    requires Begins(j)
  {
    j.Overhead(Reserve(j) % 0x1_0000, FatLength(j))
  }

  lemma FirstPass(j: Job, p: Pass)
    requires j.Valid() && OnePass(j, 0, j.bpb.bigFatSecs) == Ok(p)
    ensures Begins(j) && j.need <= p.res
    ensures p.res == j.Reserved(0) && p.spc == j.Cluster(p.res) && p.spf == FatLength(j)
    ensures p.start == j.Overhead(p.res, p.spf)
    ensures p.skew == if j.bpb.resSectors == 0 then (p.res + j.FatArea(p.spf)) % p.spc else 0
  {
    if j.bpb.bigFatSecs == 0 {
      ComputedPass(j, p);
    } else {
      MulMono(1, j.bpb.bigFatSecs, j.bpb.fats);
    }
  }

  lemma SecondPass(j: Job, extra: nat, spf: nat, q: Pass)
    requires j.Valid() && j.bpb.resSectors == 0 && spf >= 1 && OnePass(j, extra, spf) == Ok(q)
    ensures q.res == j.Reserved(0) + extra && q.spc == j.Cluster(q.res) && q.spf == spf
    ensures q.start == j.Overhead(q.res, spf) + (if j.bpb.bigFatSecs == 0 then j.FatArea(spf - 1) else 0)
  {
  }

  lemma PaddingIs(j: Job, a: Pass)
    requires j.Valid() && OnePass(j, 0, j.bpb.bigFatSecs) == Ok(a)
    ensures Begins(j) && Padding(j) == if j.align && a.skew != 0 then a.spc - a.skew else 0
  {
    FirstPass(j, a);
  }

  lemma PaddedPass(j: Job, extra: nat, spf: nat, q: Pass)
    requires Begins(j) && j.bpb.resSectors == 0 && OnePass(j, extra, spf) == Ok(q)
    requires extra == Padding(j) && extra > 0 && spf == FatLength(j) && spf >= 1
    ensures q.res == Reserve(j) && q.spc == j.Cluster(q.res) && q.spf == FatLength(j) && q.start == Start(j)
  {
    SecondPass(j, extra, spf, q);
  }

  /** The pass that the loop keeps. */
  lemma LastPass(j: Job, p: Pass)
    requires j.Valid() && FinalPass(j) == Ok(p)
    ensures Begins(j)
    ensures p.res == Reserve(j) && p.spc == j.Cluster(p.res) && p.spf == FatLength(j) && p.start == Start(j)
  {
    var a := OnePass(j, 0, j.bpb.bigFatSecs).value;
    PaddingIs(j, a);
    FirstPass(j, a);
    if j.align && a.skew != 0 {
      PaddedPass(j, a.spc - a.skew, a.spf, p);
    }
  }

  /**
   The header holds another reserved area than the layout's exactly when what was asked for and
   the padding come to more than 16 bits.
   */
  lemma HeaderOverflowsExactly(j: Job, plan: Plan)
    requires j.Valid() && Solution(j) == Ok(plan)
    ensures Begins(j) && plan.bpb.resSectors == Reserve(j)
    ensures Stored(Seal(plan)) == Seal(plan) <==> Reserve(j) <= MAXU16
  {
    LastPass(j, FinalPass(j).value);
    FinishParts(j, FinalPass(j).value, plan);
    StoredSame(plan);
  }

  lemma StoredSame(plan: Plan)
    ensures Stored(Seal(plan)) == Seal(plan) <==> plan.bpb.resSectors <= MAXU16
  {
  }

  /** The header's clusters begin where the layout's do unless it overflows or a FAT was counted twice. */
  lemma StartsAgreeExactly(j: Job)
    requires Begins(j) && FatLength(j) >= 1
    ensures Seen(j) <= Start(j)
    ensures Seen(j) == Start(j) <==>
              Reserve(j) <= MAXU16 && (Padding(j) == 0 || j.bpb.bigFatSecs != 0 || FatLength(j) == 1)
  {
    MulMono(0, FatLength(j) - 1, j.bpb.fats);
    if FatLength(j) > 1 {
      MulMono(1, FatLength(j) - 1, j.bpb.fats);
    }
  }

  /** When a reader who has the clusters begin at `seen` finds an allowed number, if the layout began at `start`. */
  predicate TypeAgrees(j: Job, plan: Plan, seen: nat, start: nat, spc: nat, spf: nat)
    requires j.Valid() && plan.bpb.bytesPerSec > 0 && plan.bpb.secPerClust > 0
  {
    CountAllowed(Stored(Seal(plan)), j.fat) <==>
      || j.bpb.hugeSectors - seen < (MaxCls(j.fat) + 1) * spc
      || (start == seen && Wrap32(j.Capacity(spf)) > MaxCls(j.fat))
  }

  /** When that is the number laid out. */
  predicate CountAgrees(j: Job, plan: Plan, seen: nat, start: nat, spc: nat, spf: nat)
    requires j.Valid() && seen <= start <= j.bpb.hugeSectors && IsSpc(spc)
    requires plan.bpb.bytesPerSec > 0 && plan.bpb.secPerClust > 0
  {
    var fit, cap := (j.bpb.hugeSectors - start) / spc, Wrap32(j.Capacity(spf));
    Reader.Clusters(Stored(Seal(plan))) == plan.clusters <==>
      if Min(fit, cap) > MaxCls(j.fat) then start == seen
      else fit <= cap && (j.bpb.hugeSectors - seen) / spc == fit
  }

  /** When the FAT has an entry for each. */
  predicate EntriesAgree(j: Job, plan: Plan, seen: nat, start: nat, spc: nat, spf: nat)
    requires j.Valid() && seen <= start <= j.bpb.hugeSectors && IsSpc(spc)
    requires plan.bpb.bytesPerSec > 0 && plan.bpb.secPerClust > 0
  {
    var fit, cap := (j.bpb.hugeSectors - start) / spc, Wrap32(j.Capacity(spf));
    Reader.Clusters(Stored(Seal(plan))) <= j.Capacity(spf) <==>
      if Min(fit, cap) > MaxCls(j.fat) then MaxCls(j.fat) + HowMany(start - seen, spc) <= j.Capacity(spf)
      else (j.bpb.hugeSectors - seen) / spc <= j.Capacity(spf)
  }

  lemma CountedAgrees(j: Job, plan: Plan, p: Pass)
    requires j.Valid() && Counted(j, plan, p) && plan.bpb.bytesPerSec > 0 && plan.bpb.secPerClust > 0
    ensures TypeAgrees(j, plan, SeenStart(j, p), p.start, p.spc, p.spf)
    ensures CountAgrees(j, plan, SeenStart(j, p), p.start, p.spc, p.spf)
  {
    CountedType(j, plan, p);
  }

  lemma CountedEntriesAgree(j: Job, plan: Plan, p: Pass)
    requires j.Valid() && Counted(j, plan, p) && plan.bpb.bytesPerSec > 0 && plan.bpb.secPerClust > 0
    ensures EntriesAgree(j, plan, SeenStart(j, p), p.start, p.spc, p.spf)
  {
    CountedEntries(j, plan, p);
  }

  /** Type, clusters and FAT entries as the reader finds them, for every accepted layout. */
  lemma RequestedAgreement(j: Job, plan: Plan)
    requires j.Valid() && Solution(j) == Ok(plan)
    ensures Begins(j) && Seen(j) <= Start(j) <= j.bpb.hugeSectors
    ensures plan.bpb.bytesPerSec > 0 && plan.bpb.secPerClust > 0
    ensures TypeAgrees(j, plan, Seen(j), Start(j), j.Cluster(Reserve(j)), FatLength(j))
    ensures CountAgrees(j, plan, Seen(j), Start(j), j.Cluster(Reserve(j)), FatLength(j))
    ensures EntriesAgree(j, plan, Seen(j), Start(j), j.Cluster(Reserve(j)), FatLength(j))
  {
    var p := FinalPass(j).value;
    LastPass(j, p);
    PlanBounds(j, plan);
    ReaderCount(j, plan, p);
    CountedAgrees(j, plan, p);
    CountedEntriesAgree(j, plan, p);
  }

  /** What a volume must have to be accepted. */
  predicate Acceptable(j: Job)
    requires j.Valid()
  {
    && j.need <= j.Reserved(0) && Begins(j)
    && (j.fat != 32 ==> FatLength(j) <= MAXU16)
    && MinCls(j.fat) <= Wrap32(j.Capacity(FatLength(j)))
    && Start(j) + MinCls(j.fat) * j.Cluster(Reserve(j)) <= j.bpb.hugeSectors
  }

  lemma LeastFits(j: Job, p: Pass)
    requires j.Valid() && p.start <= j.bpb.hugeSectors && p.spc > 0
    ensures Finish(j, p).Ok? <==>
              MinCls(j.fat) <= Cap(j, p) && p.start + MinCls(j.fat) * p.spc <= j.bpb.hugeSectors
  {
    DivBelowExactly(j.bpb.hugeSectors - p.start, p.spc, MinCls(j.fat));
  }

  lemma FirstIsMade(j: Job)
    requires j.Valid() && Acceptable(j)
    ensures OnePass(j, 0, j.bpb.bigFatSecs).Ok?
  {
    MulMono(0, MinCls(j.fat), j.Cluster(Reserve(j)));
  }

  lemma SecondIsMade(j: Job, a: Pass)
    requires j.Valid() && Acceptable(j) && OnePass(j, 0, j.bpb.bigFatSecs) == Ok(a)
    requires j.align && a.skew != 0
    ensures OnePass(j, a.spc - a.skew, a.spf).Ok?
  {
    FirstPass(j, a);
    MulMono(0, MinCls(j.fat), j.Cluster(Reserve(j)));
    assert j.Reserved(a.spc - a.skew) == Reserve(j);
  }

  lemma LastIsMade(j: Job)
    requires j.Valid() && Acceptable(j)
    ensures FinalPass(j).Ok?
  {
    FirstIsMade(j);
    var a := OnePass(j, 0, j.bpb.bigFatSecs).value;
    if j.align && a.skew != 0 {
      SecondIsMade(j, a);
    }
  }

  /** Any layout is accepted exactly when the least number of clusters fits behind its start and in its FAT. */
  lemma AcceptableExactly(j: Job)
    requires j.Valid()
    ensures Solution(j).Ok? <==> Acceptable(j)
  {
    if Acceptable(j) {
      LastIsMade(j);
    }
    if FinalPass(j).Ok? {
      var p := FinalPass(j).value;
      LastPass(j, p);
      LeastFits(j, p);
      PassBounds(j, p);
      FirstPass(j, OnePass(j, 0, j.bpb.bigFatSecs).value);
    }
  }

  /** The metadata of the first pass, or of a second one that pads. */
  predicate MetaFits(j: Job)
    requires j.Valid()
  {
    && j.Overhead(j.Reserved(0), Max(j.bpb.bigFatSecs, 1)) <= j.bpb.hugeSectors
    && (Begins(j) && Padding(j) != 0 ==> j.Overhead(Reserve(j), FatLength(j)) <= j.bpb.hugeSectors)
  }

  lemma FirstRefused(j: Job)
    requires j.Valid()
    ensures var r := OnePass(j, 0, j.bpb.bigFatSecs);
            if j.Reserved(0) < j.need then r == Err(TooFewReserved)
            else if j.fat != 32 && j.bpb.bigFatSecs > MAXU16 then r == Err(FatTooLarge)
            else if j.Overhead(j.Reserved(0), Max(j.bpb.bigFatSecs, 1)) > j.bpb.hugeSectors then
              r == Err(MetaDataExceeds)
            else r.Ok?
  {
  }

  lemma SecondRefused(j: Job, extra: nat, spf: nat)
    requires j.Valid() && j.bpb.resSectors == 0 && spf >= 1 && (j.fat == 32 || spf <= MAXU16)
    ensures var r := OnePass(j, extra, spf);
            if j.Overhead(j.Reserved(0) + extra, spf) > j.bpb.hugeSectors then r == Err(MetaDataExceeds) else r.Ok?
  {
  }

  /** Which refusal the loop meets, each exactly when those before it do not apply. */
  lemma LoopRefused(j: Job)
    requires j.Valid()
    ensures if j.Reserved(0) < j.need then FinalPass(j) == Err(TooFewReserved)
            else if j.fat != 32 && j.bpb.bigFatSecs > MAXU16 then FinalPass(j) == Err(FatTooLarge)
            else if !MetaFits(j) then FinalPass(j) == Err(MetaDataExceeds)
            else FinalPass(j).Ok?
  {
    FirstRefused(j);
    var first := OnePass(j, 0, j.bpb.bigFatSecs);
    if first.Ok? {
      FirstPass(j, first.value);
      PaddingIs(j, first.value);
      if Padding(j) != 0 {
        FirstFatFits(j, first.value);
        SecondRefused(j, Padding(j), FatLength(j));
      }
    }
  }

  lemma FirstFatFits(j: Job, a: Pass)
    requires j.Valid() && OnePass(j, 0, j.bpb.bigFatSecs) == Ok(a)
    ensures a.spf >= 1 && (j.fat == 32 || a.spf <= MAXU16)
  {
    FatSectorsSmall(j, Min(a.estimate, MaxCls(j.fat)));
  }

  /** And what the layout as a whole meets: what is left is that there are too few clusters. */
  lemma RefusedExactly(j: Job)
    requires j.Valid()
    ensures if j.Reserved(0) < j.need then Solution(j) == Err(TooFewReserved)
            else if j.fat != 32 && j.bpb.bigFatSecs > MAXU16 then Solution(j) == Err(FatTooLarge)
            else if !MetaFits(j) then Solution(j) == Err(MetaDataExceeds)
            else Solution(j).Ok? || (Solution(j).error.TooFewClusters? && Solution(j).error.clusters < MinCls(j.fat))
  {
    LoopRefused(j);
  }

  /** A FAT of one sector describes fewer clusters than its type allows. */
  lemma OneSectorIsFew(j: Job)
    requires j.Valid()
    ensures j.Capacity(1) <= MaxCls(j.fat)
  {
  }

  /** Without padding the loop makes one pass, aligned or not. */
  lemma UnpaddedIsPlain(j: Job)
    requires Begins(j) && FinalPass(j).Ok? && Padding(j) == 0
    ensures var k := j.(align := false); k.Valid() && Solution(k) == Solution(j)
  {
    PaddingIs(j, OnePass(j, 0, j.bpb.bigFatSecs).value);
    SamePass(j, j.(align := false));
    SameEnd(j, j.(align := false), FinalPass(j).value);
  }

  /** The rest of a pass and what follows the loop do not look at alignment. */
  lemma SameChoice(j: Job, k: Job)
    requires j.Valid() && k == j.(align := false)
    ensures k.Reserved(0) == j.Reserved(0) && k.Cluster(j.Reserved(0)) == j.Cluster(j.Reserved(0))
  {
    var res, k' := j.Reserved(0), j.FatSectors(MaxCls(j.fat));
    assert k.FatSectors(MaxCls(k.fat)) == k' && k.Overhead(res, k') == j.Overhead(res, k');
  }

  lemma SamePlace(j: Job, k: Job, res: nat, spc: nat, spf: nat)
    requires j.Valid() && k == j.(align := false) && IsSpc(spc)
    ensures Place(k, res, spc, spf) == Place(j, res, spc, spf)
  {
  }

  lemma SamePass(j: Job, k: Job)
    requires j.Valid() && k == j.(align := false)
    ensures OnePass(k, 0, k.bpb.bigFatSecs) == OnePass(j, 0, j.bpb.bigFatSecs)
  {
    SameChoice(j, k);
    SamePlace(j, k, j.Reserved(0), j.Cluster(j.Reserved(0)), j.bpb.bigFatSecs);
  }

  lemma SameEnd(j: Job, k: Job, p: Pass)
    requires j.Valid() && k == j.(align := false) && p.start <= j.bpb.hugeSectors && p.spc > 0
    ensures Finish(k, p) == Finish(j, p)
  {
  }

  /**
   With the FAT size computed, the reader finds an allowed number of clusters, and by it the type
   that was formatted, exactly when alignment found nothing to pad or the sectors it sees make up
   no more clusters than the type has.
   */
  lemma ComputedTypeExactly(j: Job, plan: Plan)
    requires j.Valid() && j.bpb.bigFatSecs == 0 && Solution(j) == Ok(plan)
    ensures Begins(j) && Seen(j) <= j.bpb.hugeSectors && plan.bpb.bytesPerSec > 0 && plan.bpb.secPerClust > 0
    ensures CountAllowed(Stored(Seal(plan)), j.fat) <==>
              || Padding(j) == 0
              || j.bpb.hugeSectors - Seen(j) < (MaxCls(j.fat) + 1) * j.Cluster(Reserve(j))
    ensures CountAllowed(Stored(Seal(plan)), j.fat) ==> Reader.FatType(Stored(Seal(plan))) == j.fat
    ensures j.fat != 32 && Reader.FatType(Stored(Seal(plan))) == j.fat ==> CountAllowed(Stored(Seal(plan)), j.fat)
  {
    RequestedAgreement(j, plan);
    ReaderCount(j, plan, FinalPass(j).value);
    CountedType(j, plan, FinalPass(j).value);
    if Padding(j) == 0 {
      UnpaddedIsPlain(j);
      ComputedTypeAgreement(j.(align := false), plan);
    } else {
      FirstPass(j, OnePass(j, 0, 0).value);
      StartsAgreeExactly(j);
      OneSectorIsFew(j);
    }
  }
}
