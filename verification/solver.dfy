/**
 The layout loop as the source runs it: C variables of 32 and 64 bits updated step by step.
 Every operation on u32 and u64 is checked not to wrap; the one truncating cast of the
 source, of the FAT capacity, is written as Wrap32.
 Line numbers are those of mkfs_msdos.c.
 */
module Solver {
  import opened Machine
  import opened Fat
  import opened Wrappers
  import opened Layout
  import opened Defaults

  /** howmany on machine words. */
  function HowMany32(x: u32, y: u32): (r: u32)
    requires y > 0 && x as int + y as int - 1 < TWO32
    ensures r as int == HowMany(x as int, y as int)
  {
    (x + (y - 1)) / y
  }

  /** The fixed part of the doubling test; it stays far below 2^32. */
  lemma BudgetFits(j: Job, res: nat)
    requires j.Valid() && res <= 0x10100
    ensures (RESFTE + MaxCls(j.fat)) * j.E() + j.N() < TWO32
    ensures j.FatSectors(MaxCls(j.fat)) <= 0x20_0000
    ensures j.FatArea(j.FatSectors(MaxCls(j.fat))) <= 0x200_0000
    ensures j.RootSectors() <= 0x1000
    ensures j.Overhead(res, j.FatSectors(MaxCls(j.fat))) < TWO32
  {
    HowManyAtMost((RESFTE + MaxCls(j.fat)) * j.E(), j.N(), 0x20_0000);
    MulMono(j.FatSectors(MaxCls(j.fat)), 0x20_0000, j.bpb.fats);
    HowManyAtMost(j.RootDirEnts(), j.bpb.bytesPerSec / DIRENT, 0x1000);
  }

  /** The sectors in front of the clusters of a volume with the largest FAT of its type. */
  method FixedPart(j: Job, res: u32, rds: u32) returns (fixed: u32)
    requires j.Valid() && res as int <= 0x10100 && rds as int == j.RootSectors()
    ensures fixed as int == j.Overhead(res as int, j.FatSectors(MaxCls(j.fat)))
  {
    BudgetFits(j, res as int);
    var bps, fat, fats, most := j.bpb.bytesPerSec as u32, j.fat as u32, j.bpb.fats as u32, MaxCls(j.fat) as u32;
    fixed := res + HowMany32((2 + most) * (fat / 4), bps * 2) * fats + rds;
  }

  method DefaultCluster(j: Job, res: u32, rds: u32) returns (spc: u32)
    requires j.Valid() && j.bpb.secPerClust == 0
    requires res as int <= 0x10100 && rds as int == j.RootSectors()
    ensures IsDefault(j, res as int, spc as int) && spc as int == j.Cluster(res as int)
  {
    var most := MaxCls(j.fat) as u32;
    var fixed := FixedPart(j, res, rds);
    spc := HowMany32(if j.fat == 16 then 2048 else 4096, j.bpb.bytesPerSec as u32);
    while spc < 128 && fixed as u64 + (most as u64 + 1) * (spc as u64) <= j.bpb.hugeSectors as u64
      invariant IsSpc(spc as int)
      invariant Doubled(fixed as int, MaxCls(j.fat) + 1, j.bpb.hugeSectors, spc as int) == j.Cluster(res as int)
      decreases 128 - spc
    {
      spc := spc * 2;
    }
    DefaultExactly(j, res as int, spc as int);
  }

  lemma ProductFits(a: nat, b: nat, p: nat, q: nat)
    requires a <= p && b <= q
    ensures a * b <= p * q
  {
    MulMono(a, p, b);
    MulMono(b, q, p);
  }

  /** Line 559: clusters that fit, from a 64-bit product over a 32-bit cost. */
  method EstimateClusters(j: Job, room: u32, spc: u32) returns (x: u32)
    requires j.Valid() && IsSpc(spc as int)
    ensures x as int == Estimate(room as int, spc as int, j.N(), j.FatArea(j.E()))
  {
    var bps, fat, fats := j.bpb.bytesPerSec as u32, j.fat as u32, j.bpb.fats as u32;
    ProductFits(room as int, bps as int, TWO32, 4096);
    ProductFits(spc as int, bps as int, 128, 4096);
    ProductFits(j.E(), fats as int, 8, 16);
    var cost := spc * bps * 2 + fat / 4 * fats;
    var nibbles := room as u64 * bps as u64 * 2;
    EstimateSmall(room as int, spc as int, j.N(), j.FatArea(j.E()), nibbles as int, cost as int);
    x := (nibbles / cost as u64) as u32;
  }

  lemma EstimateSmall(room: nat, spc: nat, n: nat, cost: nat, nibbles: nat, each: nat)
    requires spc > 0 && n > 0 && nibbles == room * n && each == spc * n + cost
    ensures each > 0 && nibbles / each == Estimate(room, spc, n, cost) <= room
  {
    var x := Estimate(room, spc, n, cost);
    MulMono(1, spc, n);
    MulMono(n, each, x);
    if x > room {
      MulMono(room + 1, x, n);
    }
  }

  /** Lines 561-563: sectors of a FAT for the estimated clusters. */
  method SizeFat(j: Job, x: u32) returns (x2: u32)
    requires j.Valid()
    ensures x2 as int == j.FatSectors(Min(x as int, MaxCls(j.fat)))
  {
    BudgetFits(j, 0);
    var bps, fat, most := j.bpb.bytesPerSec as u32, j.fat as u32, MaxCls(j.fat) as u32;
    var covered := if x < most then x else most;
    ProductFits(RESFTE + covered as int, j.E(), RESFTE + most as int, j.E());
    x2 := HowMany32((2 + covered) * (fat / 4), bps * 2);
  }

  /** Lines 522-534: the reserved area of an attempt that pads by `extra` sectors. */
  method ReserveArea(j: Job, extra: u32) returns (res: u32, rds: u32)
    requires j.Valid() && extra <= 128
    ensures res as int == j.Reserved(extra as int) <= 0x10100
    ensures rds as int == j.RootSectors() <= 0x1000
  {
    var bps, fat, need, rde := j.bpb.bytesPerSec as u32, j.fat as u32, j.need as u32, j.bpb.rootDirEnts as u32;
    res := j.bpb.resSectors as u32;
    if res == 0 {
      var least := if 16384 / bps > 4 then 16384 / bps else 4;
      res := (if fat == 32 && need < least then least else need) + extra;
    }
    if fat != 32 && rde == 0 {
      rde := 512;
    }
    BudgetFits(j, 0);
    rds := HowMany32(rde, bps / 32);
  }

  /** The u_int product of a FAT size and the number of FATs. */
  function FatSpan(j: Job, spf: u32): (n: u32)
    requires j.Valid() && j.FatArea(spf as int) < TWO32
    ensures n as int == j.FatArea(spf as int)
  {
    spf * j.bpb.fats as u32
  }

  /** The same product in 64 bits, where it cannot wrap. */
  function FatSpan64(j: Job, spf: u32): (n: u64)
    requires j.Valid()
    ensures n as int == j.FatArea(spf as int) <= 0x10_0000_0000
  {
    ProductFits(spf as int, j.bpb.fats, TWO32, MAXNFT);
    spf as u64 * j.bpb.fats as u64
  }

  /** Lines 548-572: the FAT size and where the clusters would start. */
  method PlaceFats(j: Job, res: u32, rds: u32, spc: u32, bigFatSecs: u32) returns (r: Result<Pass, Error>)
    requires j.Valid() && IsSpc(spc as int)
    requires res as int <= 0x10100 && rds as int == j.RootSectors() <= 0x1000
    requires bigFatSecs == 0 ==> j.bpb.bigFatSecs == 0
    requires var p := Place(j, res as int, spc as int, bigFatSecs as int); p.Ok? ==> p.value.start <= j.bpb.hugeSectors
    ensures r == Place(j, res as int, spc as int, bigFatSecs as int)
    ensures r.Ok? ==> r.value.spf < TWO32
  {
    var huge, spf := j.bpb.hugeSectors as u32, bigFatSecs;
    var setRes, setSpf := j.bpb.resSectors == 0, j.bpb.bigFatSecs == 0;
    if j.fat != 32 && spf > 0xffff {
      return Err(FatTooLarge);
    }
    var x1 := res + rds;
    var x: u32 := if spf != 0 then spf else 1;
    if x1 as u64 + FatSpan64(j, x) > huge as u64 {
      return Err(MetaDataExceeds);
    }
    x1 := x1 + FatSpan(j, x);
    x := EstimateClusters(j, huge - x1, spc);
    var x2 := SizeFat(j, x);
    if setSpf {
      if spf == 0 {
        spf := x2;
      }
      x1 := x1 + FatSpan(j, spf - 1);
    }
    var alignment: u32 := 0;
    if setRes {
      assert res as int + j.FatArea(spf as int) <= x1 as int by { FatAreaSplit(j, spf as int); }
      alignment := (res + FatSpan(j, spf)) % spc;
    }
    r := Ok(Pass(res as int, spc as int, spf as int, x1 as int, x as int, x2 as int, alignment as int));
  }

  /** The loop body (lines 522-575): one attempt at a layout with `extra` padding sectors. */
  method MakePass(j: Job, extra: u32, bigFatSecs: u32) returns (r: Result<Pass, Error>)
    requires j.Valid() && extra <= 128
    requires bigFatSecs == 0 ==> j.bpb.bigFatSecs == 0
    requires var p := OnePass(j, extra as int, bigFatSecs as int); p.Ok? ==> p.value.start <= j.bpb.hugeSectors
    ensures r == OnePass(j, extra as int, bigFatSecs as int)
    ensures r.Ok? ==> r.value.spf < TWO32
  {
    var res, rds := ReserveArea(j, extra);
    if j.bpb.resSectors != 0 && j.bpb.resSectors < j.need {
      return Err(TooFewReserved);
    }
    var spc := j.bpb.secPerClust as u32;
    if spc == 0 {
      spc := DefaultCluster(j, res, rds);
    }
    r := PlaceFats(j, res, rds, spc, bigFatSecs);
  }

  /** Line 582: the clusters a FAT can describe, cut to 32 bits by the assignment. */
  method FatCapacity(j: Job, spf: u32) returns (x: u32)
    requires j.Valid() && spf >= 1
    ensures x as int == Wrap32(j.Capacity(spf as int))
  {
    var bps, fat := j.bpb.bytesPerSec as u32, j.fat as u32;
    ProductFits(spf as int, bps as int, TWO32, 4096);
    MulMono(1, spf as int, bps as int);
    var nibbles, entry := spf as u64 * bps as u64 * 2, (fat / 4) as u64;
    assert nibbles as int == spf as int * j.N() && entry as int == j.E();
    DivAtLeast(nibbles as int, entry as int, RESFTE);
    x := Wrap32((nibbles / entry - 2) as int) as u32;
  }

  /** Lines 581-599: the cluster count, its clamps, and the cut to the FAT type's largest volume. */
  method ClampClusters(j: Job, p: Pass) returns (r: Result<Plan, Error>)
    requires j.Valid() && p.start <= j.bpb.hugeSectors && IsSpc(p.spc) && 1 <= p.spf < TWO32
    ensures r == Finish(j, p)
  {
    var least, most := MinCls(j.fat) as u32, MaxCls(j.fat) as u32;
    var cls := (j.bpb.hugeSectors as u32 - p.start as u32) / p.spc as u32;
    var x := FatCapacity(j, p.spf as u32);
    if cls > x {
      cls := x;
    }
    if cls < least {
      r := Err(TooFewClusters(cls as int));
    } else {
      var huge;
      cls, huge := CutToMost(cls, most, j.bpb.hugeSectors as u32, p.start as u32, p.spc as u32);
      r := Ok(Plan(j.bpb.(resSectors := p.res, secPerClust := p.spc, rootDirEnts := j.RootDirEnts(),
                          bigFatSecs := p.spf, hugeSectors := huge as int),
                   j.fat, j.RootSectors(), cls as int));
    }
  }

  /** Lines 594-599: a volume with more clusters than its type allows is cut. */
  method CutToMost(clusters: u32, most: u32, volume: u32, x1: u32, spc: u32) returns (cls: u32, huge: u32)
    requires x1 <= volume && 1 <= spc && clusters <= (volume - x1) / spc
    ensures cls as int == Min(clusters as int, most as int)
    ensures huge as int == if clusters > most then x1 as int + (most as int + 1) * spc as int - 1 else volume as int
  {
    cls, huge := clusters, volume;
    if cls > most {
      cls := most;
      RoomForOneMore(most as int, (volume - x1) as int, spc as int);
      huge := x1 + (cls + 1) * spc - 1;
    }
  }

  lemma RoomForOneMore(most: nat, room: nat, s: nat)
    requires s >= 1 && most < room / s
    ensures 0 < (most + 1) * s <= room
  {
    var q := room / s;
    DivBounds(room, s);
    MulMono(most + 1, q, s);
    MulMono(1, most + 1, s);
  }

  /** Both attempts the loop can make keep the start of the data area inside the volume. */
  lemma AttemptsFit(j: Job)
    requires j.Valid()
    ensures var first := OnePass(j, 0, j.bpb.bigFatSecs);
            first.Ok? ==>
              && first.value.start <= j.bpb.hugeSectors
              && (first.value.skew != 0 ==>
                    var second := OnePass(j, first.value.spc - first.value.skew, first.value.spf);
                    second.Ok? ==> second.value.start <= j.bpb.hugeSectors)
  {
    var first := OnePass(j, 0, j.bpb.bigFatSecs);
    if first.Ok? {
      var p := first.value;
      FirstPassFits(j, p);
      if p.skew != 0 && OnePass(j, p.spc - p.skew, p.spf).Ok? {
        SecondPassFits(j, p, OnePass(j, p.spc - p.skew, p.spf).value);
      }
    }
  }

  /** One trip round the do/while: a pass, and whether and with how much more padding to try again (lines 569-577). */
  method Attempt(j: Job, extraRes: u32, bigFatSecs: u32, attempts: u32)
    returns (attempt: Result<Pass, Error>, padding: u32, spf: u32, again: bool)
    requires j.Valid() && extraRes <= 128 && attempts < 2
    requires bigFatSecs == 0 ==> j.bpb.bigFatSecs == 0
    requires var p := OnePass(j, extraRes as int, bigFatSecs as int); p.Ok? ==> p.value.start <= j.bpb.hugeSectors
    ensures attempt == OnePass(j, extraRes as int, bigFatSecs as int) && (attempt.Ok? ==> attempt.value.spf < TWO32)
    ensures again <==> attempt.Ok? && j.align && attempt.value.skew != 0 && attempts == 0
    ensures again ==>
              padding as int == extraRes as int + attempt.value.spc - attempt.value.skew <= extraRes as int + 128
    ensures again ==> spf as int == attempt.value.spf >= 1
  {
    padding, spf, again := extraRes, bigFatSecs, false;
    attempt := MakePass(j, extraRes, bigFatSecs);
    if attempt.Ok? {
      spf := attempt.value.spf as u32;
      var alignment: u32 := 0;
      if j.bpb.resSectors == 0 {
        alignment := attempt.value.skew as u32;
        if j.align {
          padding := padding + (attempt.value.spc as u32 - alignment);
        }
      }
      again := j.align && alignment != 0 && attempts + 1 < 2;
    }
  }

  /** The do/while of lines 521-577. */
  method Attempts(j: Job) returns (attempt: Result<Pass, Error>)
    requires j.Valid()
    ensures attempt == FinalPass(j) && (attempt.Ok? ==> attempt.value.spf < TWO32)
  {
    AttemptsFit(j);
    attempt := Err(TooFewReserved);
    var bigFatSecs, extraRes, attempts: u32 := j.bpb.bigFatSecs as u32, 0, 0;
    var again := true;
    while again
      invariant attempts == 0 ==> again && extraRes == 0 && bigFatSecs as int == j.bpb.bigFatSecs
      invariant attempts == 1 && again ==>
                  && attempt == OnePass(j, 0, j.bpb.bigFatSecs) && attempt.Ok? && j.align && attempt.value.skew != 0
                  && extraRes as int == attempt.value.spc - attempt.value.skew <= 128
                  && bigFatSecs as int == attempt.value.spf >= 1
      invariant attempts >= 2 ==> !again
      invariant !again ==> attempt == FinalPass(j) && (attempt.Ok? ==> attempt.value.spf < TWO32)
      decreases again, 2 - attempts as int
    {
      attempt, extraRes, bigFatSecs, again := Attempt(j, extraRes, bigFatSecs, attempts);
      attempts := attempts + 1;
    }
  }

  /** Lines 505-599: the alignment loop, then the cluster count and its clamps. */
  method Solve(j: Job) returns (r: Result<Plan, Error>)
    requires j.Valid()
    ensures r == Solution(j)
  {
    var attempt := Attempts(j);
    if attempt.Err? {
      r := Err(attempt.error);
    } else {
      r := ClampClusters(j, attempt.value);
    }
  }
}
