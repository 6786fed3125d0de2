/** Accepted volumes that do not read back as formatted: one for each condition the agreement lemmas name. */
module Limits {
  import opened Machine
  import opened Fat
  import opened Wrappers
  import opened Layout
  import opened Agreement
  import Reader

  /** A FAT12 volume of 512-byte sectors with every default but the four values given here. */
  predicate Fat12Job(j: Job, huge: nat, spc: nat, spf: nat, align: bool) {
    && j.Valid() && j.fat == 12 && j.need == 1 && j.align == align
    && j.bpb.bytesPerSec == 512 && j.bpb.hugeSectors == huge && j.bpb.secPerClust == spc && j.bpb.bigFatSecs == spf
    && j.bpb.fats == 2 && j.bpb.resSectors == 0 && j.bpb.rootDirEnts == 0
  }

  /** One sector per FAT on 100000 sectors is accepted as FAT12; a reader sees 99965 clusters and takes it for FAT32. */
  lemma GivenFatMisleads(j: Job)
    requires Fat12Job(j, 100000, 1, 1, false)
    ensures Solution(j).Ok? && Solution(j).value.clusters == 339
    ensures var b := Stored(Seal(Solution(j).value)); Reader.Clusters(b) == 99965 && Reader.FatType(b) == 32
  {
    var p := FinalPass(j).value;
    assert p.start == 35 && j.Capacity(1) == 339;
    ReaderCount(j, Solution(j).value, p);
  }

  /** Aligning a 40000-sector FAT12 volume cuts it for 4084 clusters, but leaves the reader 4087: it reads FAT16. */
  lemma AlignedCutMisleads(j: Job)
    requires Fat12Job(j, 40000, 8, 0, true)
    ensures Solution(j).Ok? && Solution(j).value.clusters == 4084
    ensures var b := Stored(Seal(Solution(j).value)); Reader.Clusters(b) == 4087 && Reader.FatType(b) == 16
  {
    var a := OnePass(j, 0, 0).value;
    ComputedPass(j, a);
    AlignedPasses(j, a);
    var p := FinalPass(j).value;
    assert p.start == 86 && j.Capacity(12) == 4094;
    ReaderCount(j, Solution(j).value, p);
  }

  lemma AlignedPasses(j: Job, a: Pass)
    requires Fat12Job(j, 40000, 8, 0, true) && OnePass(j, 0, 0) == Ok(a)
    ensures a.spf == 12 && a.skew == 1
    ensures FinalPass(j).Ok?
    ensures var p := FinalPass(j).value; p.res == 8 && p.spf == 12 && p.spc == 8 && p.start == 86
  {
    assert j.RootSectors() == 32;
    DivUnique(39965 * 1024, 8 * 1024 + 6, 4991);
    assert a.estimate == Estimate(39965, 8, 1024, 6);
    assert j.FatSectors(4084) == 12;
  }

  /** The default FAT12 layout of 375 sectors: the reader's last cluster has no entry in the one-sector FAT. */
  lemma LastClusterHasNoEntry(j: Job)
    requires Fat12Job(j, 375, 1, 0, false)
    ensures Solution(j).Ok? && Solution(j).value.clusters == 339
    ensures Reader.Clusters(Stored(Seal(Solution(j).value))) == 340
    ensures (340 + 1 + 1) * j.E() > Reader.FatSize(Stored(Seal(Solution(j).value))) * j.N()
  {
    assert j.RootSectors() == 32 && j.Overhead(1, 1) == 35;
    DivUnique(340 * 1024, 1024 + 6, 338);
    assert Estimate(340, 1, 1024, 6) == 338;
    assert j.FatSectors(338) == 1;
    var p := FinalPass(j).value;
    assert p.start == 35 && j.Capacity(1) == 339;
    ReaderCount(j, Solution(j).value, p);
    SealedFields(j, Solution(j).value);
  }
}
