/** Formatting a volume again with every choice of the first time asked for changes nothing. */
module Reformat {
  import opened Fat
  import opened Wrappers
  import opened Layout
  import opened Agreement
  import opened Outcomes
  import opened Selection
  import opened OptionChecks
  import opened Mkfs

  /** Formatting the volume again, asking for every value that was chosen, poses a problem with the same solution. */
  lemma ReformatIsStable(p: Params, j: Job, plan: Plan)
    requires ValidParams(p) && JobOf(false, p) == Ok(j) && Solution(j) == Ok(plan)
    ensures ValidParams(Params(plan.bpb, plan.fat, p.bss))
    ensures var again := JobOf(false, Params(plan.bpb, plan.fat, p.bss));
            again.Ok? && again.value.Valid() && Solution(again.value) == Ok(plan)
  {
    PlanBounds(j, plan);
    LayoutIsStable(j, plan);
    var r := ReserveSectors(j.fat, p.bss, p.bpb.fsInfo, p.bpb.backup).value;
    ReservedAgain(j.fat, p.bss, p.bpb.fsInfo, p.bpb.backup, r);
    assert JobOf(false, Params(plan.bpb, plan.fat, p.bss)) == Ok(Again(j, plan));
  }

  /** Ranges of the option fields. */
  predicate Askable(plan: Plan) {
    && ValidBpb(plan.bpb) && IsFat(plan.fat) && IsSpc(plan.bpb.secPerClust)
    && 1 <= plan.bpb.heads && 1 <= plan.bpb.secPerTrack && 1 <= plan.bpb.hugeSectors
    && (if plan.fat == 32 then plan.bpb.rootDirEnts == 0 else plan.bpb.fsInfo == plan.bpb.backup == 0)
  }

  /** The options of the first time, with everything that was chosen asked for, the geometry included. */
  function Restated(o: Options, plan: Plan): Options
    requires Askable(plan)
  {
    var b := plan.bpb;
    o.(align := false, fatType := plan.fat, blockSize := 0, floppy := None,
       bytesPerSector := b.bytesPerSec, sectorsPerFat := b.bigFatSecs, sectorsPerCluster := b.secPerClust,
       directoryEntries := b.rootDirEnts, heads := b.heads, infoSector := b.fsInfo, backupSector := b.backup,
       media := if b.media == 0 then None else Some(b.media), fats := b.fats, hiddenSectors := Some(b.hiddenSecs),
       reservedSectors := b.resSectors, size := b.hugeSectors, sectorsPerTrack := b.secPerTrack)
  }

  /** The block as the restated geometry leaves it. */
  function Geometric(b: Bpb): Bpb {
    ZERO_BPB.(heads := b.heads, secPerTrack := b.secPerTrack, bytesPerSec := b.bytesPerSec,
              hugeSectors := b.hugeSectors, hiddenSecs := b.hiddenSecs)
  }

  lemma RestatedStart(o: Options, plan: Plan)
    requires Askable(plan)
    ensures StartingBlock(Restated(o, plan)) == Ok(Geometric(plan.bpb))
  {
  }

  lemma RestatedRest(o: Options, plan: Plan)
    requires Askable(plan)
    ensures var again := Restated(o, plan);
            && again.volumeLabel == o.volumeLabel && again.oem == o.oem && again.bootstrap == o.bootstrap
            && again.blockSize == 0 && !again.align && again.fats <= MAXNFT && FullGeometryGiven(again)
            && (again.media.Some? ==> again.media.value >= 0xf0)
  {
  }

  lemma RestatedFat(o: Options, plan: Plan)
    requires Askable(plan)
    ensures RequestedFat(Restated(o, plan)) == Ok(plan.fat)
  {
  }

  lemma RestatedCluster(o: Options, plan: Plan, b: Bpb)
    requires Askable(plan) && b.bytesPerSec > 0
    ensures RequestedCluster(Restated(o, plan), b) == Ok(plan.bpb.secPerClust)
  {
    SpcIsPower(plan.bpb.secPerClust);
  }

  lemma RestatedBlock(o: Options, plan: Plan)
    requires Askable(plan)
    ensures Merged(Restated(o, plan), Geometric(plan.bpb), plan.fat, plan.bpb.secPerClust) == plan.bpb
  {
  }

  /** What passed the checks once and has not changed passes them again. */
  lemma ConfiguredParts(o: Options, g: Geometry, p: Params)
    requires Configure(o, g) == Ok(p)
    ensures (o.volumeLabel.Some? ==> OkLabel(o.volumeLabel.value)) && (o.oem.Some? ==> |o.oem.value| <= 8)
    ensures p.bpb.bytesPerSec > 0 && BootSectors(o, p.bpb.bytesPerSec) == Ok(p.bss)
    ensures 1 <= p.bpb.heads && 1 <= p.bpb.secPerTrack
  {
    var a := StartingBlock(o).value;
    ProbedParts(o, g, a, Probed(o, g, a).value);
  }

  lemma ProbedParts(o: Options, g: Geometry, a: Bpb, b: Bpb)
    requires StartingBlock(o) == Ok(a) && Probed(o, g, a) == Ok(b)
    ensures 1 <= b.heads && 1 <= b.secPerTrack
  {
  }

  lemma SameBootSectors(o: Options, again: Options, bps: nat, bss: nat)
    requires bps > 0 && again.bootstrap == o.bootstrap && BootSectors(o, bps) == Ok(bss)
    ensures BootSectors(again, bps) == Ok(bss)
  {
  }

  /** With the geometry given in full the device is not asked. */
  lemma ProbeSkipped(o: Options, g: Geometry, b: Bpb)
    requires FullGeometryGiven(o) && StartingBlock(o) == Ok(b)
    requires o.blockSize == 0 && (o.oem.Some? ==> |o.oem.value| <= 8)
    ensures Configure(o, g) == Checked(o, b)
  {
  }

  lemma RestatedGeometry(o: Options, g: Geometry, plan: Plan)
    requires Askable(plan) && (o.oem.Some? ==> |o.oem.value| <= 8)
    ensures Configure(Restated(o, plan), g) == Checked(Restated(o, plan), Geometric(plan.bpb))
  {
    RestatedRest(o, plan);
    RestatedStart(o, plan);
    ProbeSkipped(Restated(o, plan), g, Geometric(plan.bpb));
  }

  lemma RestatedChecks(o: Options, plan: Plan, bss: nat)
    requires Askable(plan) && (o.volumeLabel.Some? ==> OkLabel(o.volumeLabel.value))
    requires BootSectors(o, plan.bpb.bytesPerSec) == Ok(bss)
    ensures Checked(Restated(o, plan), Geometric(plan.bpb)) == Ok(Params(plan.bpb, plan.fat, bss))
  {
    RestatedRest(o, plan);
    RestatedFat(o, plan);
    RestatedCluster(o, plan, Geometric(plan.bpb));
    RestatedBlock(o, plan);
    SameBootSectors(o, Restated(o, plan), plan.bpb.bytesPerSec, bss);
    ChecksAgain(Restated(o, plan), Geometric(plan.bpb), plan.fat, plan.bpb.secPerClust, bss, plan.bpb);
  }

  lemma AcceptedIsAskable(j: Job, plan: Plan)
    requires j.Valid() && Settled(j) && !j.align && Solution(j) == Ok(plan)
    requires 1 <= j.bpb.heads && 1 <= j.bpb.secPerTrack
    ensures Askable(plan) && plan.fat == j.fat && plan.bpb.bytesPerSec == j.bpb.bytesPerSec
  {
    PlanBounds(j, plan);
  }

  /**
   The command run again with every choice stated, on whatever device: it poses a problem with the
   same solution, so the same clusters, FATs and reserved area, and no further cut.
   */
  lemma CommandIsStable(o: Options, g: Geometry, h: Geometry, j: Job, plan: Plan)
    requires Posed(o, g) == Ok(j) && !o.align && Solution(j) == Ok(plan)
    ensures Askable(plan)
    ensures var again := Posed(Restated(o, plan), h); again.Ok? && Solution(again.value) == Ok(plan)
  {
    var p := Configure(o, g).value;
    ConfigureIsValid(o, g, p);
    ConfiguredParts(o, g, p);
    PosedIsSettled(o, g, j);
    AcceptedIsAskable(j, plan);
    RestatedGeometry(o, h, plan);
    RestatedChecks(o, plan, p.bss);
    ReformatIsStable(p, j, plan);
    PosedFrom(Restated(o, plan), h, Params(plan.bpb, plan.fat, p.bss));
  }
}
