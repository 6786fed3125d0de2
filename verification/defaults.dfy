/**
 What is chosen when nothing is asked for: cluster size, reserved area and root directory.
 Line numbers are those of mkfs_msdos.c.
 */
module Defaults {
  import opened Machine
  import opened Fat
  import opened Layout

  /** Doubling ends at the largest cluster or where the test fails first. */
  lemma {:induction false} DoubledStops(fixed: nat, unit: nat, huge: nat, spc: nat)
    requires IsSpc(spc)
    ensures var r := Doubled(fixed, unit, huge, spc); r == MAXSPC || fixed + unit * r > huge
    decreases MAXSPC - spc
  {
    if spc < MAXSPC && fixed + unit * spc <= huge {
      DoubledStops(fixed, unit, huge, 2 * spc);
    }
  }

  lemma {:induction false} DoubledTests(fixed: nat, unit: nat, huge: nat, spc: nat)
    requires IsSpc(spc)
    ensures var r := Doubled(fixed, unit, huge, spc); r == spc || fixed + unit * (r / 2) <= huge
    decreases MAXSPC - spc
  {
    if spc < MAXSPC && fixed + unit * spc <= huge {
      DoubledTests(fixed, unit, huge, 2 * spc);
    }
  }

  lemma {:induction false} DoubledGrows(fixed: nat, unit: nat, huge: nat, spc: nat)
    requires IsSpc(spc)
    ensures spc <= Doubled(fixed, unit, huge, spc)
    decreases MAXSPC - spc
  {
    if spc < MAXSPC && fixed + unit * spc <= huge {
      DoubledGrows(fixed, unit, huge, 2 * spc);
    }
  }

  /** A larger reserved area never doubles further. */
  lemma {:induction false} DoubledAntitone(fixed: nat, more: nat, unit: nat, huge: nat, spc: nat)
    requires IsSpc(spc) && fixed <= more
    ensures Doubled(more, unit, huge, spc) <= Doubled(fixed, unit, huge, spc)
    decreases MAXSPC - spc
  {
    if spc < MAXSPC && more + unit * spc <= huge {
      DoubledAntitone(fixed, more, unit, huge, 2 * spc);
    } else {
      DoubledGrows(fixed, unit, huge, spc);
    }
  }

  /** The cluster size the doubling starts from. */
  function FirstCluster(j: Job): (spc: nat)
    requires j.Valid()
    ensures IsSpc(spc)
  {
    HowMany(if j.fat == 16 then DEFBLK16 else DEFBLK, j.bpb.bytesPerSec)
  }

  /** It is 4 KiB, on FAT16 2 KiB, or one sector if that is more. */
  lemma FirstClusterBytes(j: Job)
    requires j.Valid()
    ensures FirstCluster(j) * j.bpb.bytesPerSec == if j.fat == 16 then Max(2048, j.bpb.bytesPerSec) else 4096
  {
  }

  /** With the largest FAT of its type in front, the volume has more clusters of this size than the type allows. */
  predicate TooMany(j: Job, res: nat, spc: nat)
    requires j.Valid()
  {
    j.Overhead(res, j.FatSectors(MaxCls(j.fat))) + (MaxCls(j.fat) + 1) * spc <= j.bpb.hugeSectors
  }

  /** The smallest size from the first one on that does not make too many clusters, or the largest there is. */
  predicate IsDefault(j: Job, res: nat, spc: nat)
    requires j.Valid()
  {
    && IsSpc(spc) && FirstCluster(j) <= spc
    && (spc == MAXSPC || !TooMany(j, res, spc))
    && (spc == FirstCluster(j) || TooMany(j, res, spc / 2))
  }

  /** The default cluster size is that size, and no other is. */
  lemma DefaultExactly(j: Job, res: nat, spc: nat)
    requires j.Valid() && j.bpb.secPerClust == 0
    ensures spc == j.Cluster(res) <==> IsDefault(j, res, spc)
  {
    var fixed := j.Overhead(res, j.FatSectors(MaxCls(j.fat)));
    DoubledStops(fixed, MaxCls(j.fat) + 1, j.bpb.hugeSectors, FirstCluster(j));
    DoubledTests(fixed, MaxCls(j.fat) + 1, j.bpb.hugeSectors, FirstCluster(j));
    DoubledGrows(fixed, MaxCls(j.fat) + 1, j.bpb.hugeSectors, FirstCluster(j));
    if IsDefault(j, res, spc) {
      OneDefault(j, res, spc, j.Cluster(res));
      OneDefault(j, res, j.Cluster(res), spc);
    }
  }

  lemma OneDefault(j: Job, res: nat, a: nat, b: nat)
    requires j.Valid() && IsDefault(j, res, a) && IsDefault(j, res, b)
    ensures b <= a
  {
    if a < b {
      FewerAreTooMany(j, res, a, b / 2);
    }
  }

  lemma FewerAreTooMany(j: Job, res: nat, a: nat, b: nat)
    requires j.Valid() && TooMany(j, res, b) && a <= b
    ensures TooMany(j, res, a)
  {
    MulMono(a, b, MaxCls(j.fat) + 1);
  }

  /** A reserved area left open is the least that serves and, on FAT32, covers 16 KiB and has four sectors. */
  lemma ReserveExactly(j: Job, res: nat)
    requires j.Valid() && j.bpb.resSectors == 0
    ensures res == j.Reserved(0) <==>
              && j.need <= res && (j.fat == 32 ==> 4 <= res && 16384 <= res * j.bpb.bytesPerSec)
              && (res == j.need || (j.fat == 32 && (res == 4 || (res - 1) * j.bpb.bytesPerSec < 16384)))
  {
  }
}
