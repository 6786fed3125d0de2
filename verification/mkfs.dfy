/**
 The whole command, from options to bytes, and what a reader makes of those bytes.
 Line numbers are those of mkfs_msdos.c.
 */
module Mkfs {
  import opened Machine
  import opened Fat
  import opened Wrappers
  import opened Layout
  import opened Solver
  import opened Agreement
  import opened Selection
  import opened OptionChecks
  import opened Sector
  import opened Writer

  /** What the clock shows, and the volume id that is made of it. */
  datatype Stamp = Stamp(id: U32, year: nat, month: nat, day: nat, hour: nat, minute: nat, second: nat) {
    predicate Valid() {
      1 <= month <= 12 && 1 <= day <= 31 && hour < 24 && minute < 60 && second <= 60
    }

    /** Lines 752-754, in steps of two seconds. */
    function Time(): U16
      requires Valid()
    {
      hour * 0x800 + minute * 0x20 + second / 2
    }

    /** Lines 756-758; seven bits are kept of the year. */
    function Date(): U16 {
      ((year - 1980) * 0x200 + month * 0x20 + day) % 0x1_0000
    }
  }

  /** Lines 456-510: the FAT type and the least reserved area settle what the layout is to solve. */
  function JobOf(align: bool, p: Params): (r: Result<Job, Error>)
    requires ValidParams(p)
    ensures r.Ok? ==> r.value.Valid()
  {
    var fat := if p.fat != 0 then p.fat else SelectFat(p.bpb, p.bss);
    var r :- ReserveSectors(fat, p.bss, p.bpb.fsInfo, p.bpb.backup);
    Ok(Job(p.bpb.(fsInfo := r.fsInfo, backup := r.backup), fat, r.need, align))
  }

  /**
   Automatic selection never leads to a refusal later on when it picks FAT16, or FAT32 with
   no cluster size given: the layout then fails only if too few reserved sectors were asked for.
   */
  lemma AutomaticIsAccepted(p: Params, j: Job)
    requires ValidParams(p) && p.fat == 0 && p.bpb.bigFatSecs == 0
    requires JobOf(false, p) == Ok(j) && j.fat != 12 && (j.fat == 16 || p.bpb.secPerClust == 0)
    ensures Solution(j).Ok? <==> p.bpb.resSectors == 0 || p.bpb.resSectors >= j.need
  {
    var r := ReserveSectors(j.fat, p.bss, p.bpb.fsInfo, p.bpb.backup).value;
    assert j == SelectedJob(p.bpb, p.bss, r);
    SelectionIsSafe(p.bpb, p.bss, r);
  }

  /** The layout problem that options and geometry pose. */
  function Posed(o: Options, g: Geometry): (r: Result<Job, Error>)
    ensures r.Ok? ==> r.value.Valid()
  {
    var p :- Configure(o, g);
    ConfigureIsValid(o, g, p);
    JobOf(o.align, p)
  }

  lemma PosedFrom(o: Options, g: Geometry, p: Params)
    requires Configure(o, g) == Ok(p)
    ensures ValidParams(p) && Posed(o, g) == JobOf(o.align, p)
  {
    ConfigureIsValid(o, g, p);
  }

  /** The job is the checked block with info and backup sectors settled. */
  lemma JobParts(align: bool, p: Params, j: Job)
    requires ValidParams(p) && JobOf(align, p) == Ok(j)
    ensures j.align == align && j.bpb == p.bpb.(fsInfo := j.bpb.fsInfo, backup := j.bpb.backup)
    ensures j.fat == 32 && p.bss == 1 && p.bpb.fsInfo == p.bpb.backup == 0 ==> j.bpb.fsInfo == 1 && j.bpb.backup == 2
  {
  }

  function VolumeOf(o: Options, plan: Plan, stamp: Stamp): Volume
    requires stamp.Valid()
  {
    Volume(Seal(plan), plan.fat, plan.rootSectors, if o.volumeId.Some? then o.volumeId.value else stamp.id,
           o.volumeLabel, o.oem, stamp.Time(), stamp.Date())
  }

  /** The info and backup sectors are settled and inside the least reserved area. */
  predicate Settled(j: Job) {
    if j.fat == 32 then
      && 1 <= j.bpb.fsInfo && 1 <= j.bpb.backup
      && (j.bpb.fsInfo != MAXU16 ==> j.bpb.fsInfo < j.need && j.bpb.fsInfo != j.bpb.backup)
      && (j.bpb.backup != MAXU16 ==> j.bpb.backup < j.need)
    else
      j.bpb.fsInfo == j.bpb.backup == 0
  }

  lemma PosedIsSettled(o: Options, g: Geometry, j: Job)
    requires Posed(o, g) == Ok(j)
    ensures Settled(j) && j.align == o.align
  {
    ConfigureIsValid(o, g, Configure(o, g).value);
  }

  /** The volume that a plan describes. */
  predicate Describes(plan: Plan, v: Volume) {
    v.bpb == Seal(plan) && v.fat == plan.fat && v.rootSectors == plan.rootSectors
  }

  lemma SealedVolume(j: Job, plan: Plan, v: Volume)
    requires j.Valid() && Settled(j) && InBounds(j, plan) && Describes(plan, v)
    ensures v.Valid() && v.bpb.resSectors == plan.bpb.resSectors
  {
  }

  /** An accepted layout makes a volume that can be composed; without alignment every field fits. */
  lemma AcceptedVolume(j: Job, plan: Plan, v: Volume)
    requires j.Valid() && Settled(j) && Solution(j) == Ok(plan) && Describes(plan, v)
    ensures v.Valid()
    ensures !j.align ==> v.bpb.resSectors <= MAXU16
  {
    PlanBounds(j, plan);
    SealedVolume(j, plan, v);
  }

  /** The command: solve the layout, then write the volume. */
  method Format(o: Options, g: Geometry, stamp: Stamp, chunk: nat, dev: Device) returns (r: Result<Volume, Error>)
    requires o.bootstrap.None? && PowerOf2(chunk) && chunk > MAXBPS && stamp.Valid()
    modifies dev
    ensures r.Ok? ==> Posed(o, g).Ok? && Solution(Posed(o, g).value).Ok?
    ensures r.Ok? ==> r.value == VolumeOf(o, Solution(Posed(o, g).value).value, stamp) && r.value.Valid()
    ensures r.Ok? ==> dev.data == old(dev.data) + Image(r.value, r.value.Sectors())
    ensures Posed(o, g).Ok? && Solution(Posed(o, g).value).Ok? && dev.faults == old(dev.faults) ==> r.Ok?
    ensures Posed(o, g).Err? ==> r == Err(Posed(o, g).error) && dev.data == old(dev.data)
    ensures Posed(o, g).Ok? && Solution(Posed(o, g).value).Err? ==>
              r == Err(Solution(Posed(o, g).value).error) && dev.data == old(dev.data)
    ensures r.Err? && Posed(o, g).Ok? && Solution(Posed(o, g).value).Ok? ==>
              var v := VolumeOf(o, Solution(Posed(o, g).value).value, stamp);
              && r == Err(WriteFailed) && v.Valid()
              && old(dev.data) <= dev.data <= old(dev.data) + Image(v, v.Sectors())
  {
    var posed := Posed(o, g);
    if posed.Err? {
      return Err(posed.error);
    }
    var solved := Solve(posed.value);
    if solved.Err? {
      return Err(solved.error);
    }
    var v := VolumeOf(o, solved.value, stamp);
    PosedIsSettled(o, g, posed.value);
    AcceptedVolume(posed.value, solved.value, v);
    var ok := WriteVolume(v, chunk, dev);
    r := if ok then Ok(v) else Err(WriteFailed);
  }
}
