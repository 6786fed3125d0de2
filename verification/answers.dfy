/** What was asked for, and what the device is, stands in the header of the written image. */
module Answers {
  import opened Machine
  import opened Fat
  import opened Wrappers
  import opened Layout
  import opened Agreement
  import opened Selection
  import opened Economy
  import opened OptionChecks
  import opened Requests
  import opened Sector
  import opened Mkfs
  import opened ReadBack
  import opened RoundTrip
  import opened Tables
  import opened Labels
  import Reader

  /** A job is the checked block; its FAT type and sectors are those asked for, if any were. */
  lemma JobKeeps(align: bool, p: Params, j: Job)
    requires ValidParams(p) && JobOf(align, p) == Ok(j)
    ensures j.align == align && j.bpb == p.bpb.(fsInfo := j.bpb.fsInfo, backup := j.bpb.backup)
    ensures j.fat == if p.fat != 0 then p.fat else SelectFat(p.bpb, p.bss)
    ensures p.bpb.fsInfo != 0 ==> j.bpb.fsInfo == p.bpb.fsInfo
    ensures p.bpb.backup != 0 ==> j.bpb.backup == p.bpb.backup
  {
  }

  /** The header against the job: what was given is kept, and of the total at most that is left. */
  lemma HeaderKeeps(j: Job, plan: Plan, b: Bpb)
    requires j.Valid() && Solution(j) == Ok(plan) && b == Stored(Seal(plan))
    ensures plan.fat == j.fat
    ensures b.bytesPerSec == j.bpb.bytesPerSec && b.fats == j.bpb.fats
    ensures b.heads == j.bpb.heads && b.secPerTrack == j.bpb.secPerTrack && b.hiddenSecs == j.bpb.hiddenSecs
    ensures j.bpb.secPerClust != 0 ==> b.secPerClust == j.bpb.secPerClust
    ensures j.bpb.resSectors != 0 ==> b.resSectors == j.bpb.resSectors
    ensures b.rootDirEnts == if j.bpb.rootDirEnts == 0 && j.fat != 32 then 512 else j.bpb.rootDirEnts
    ensures b.fsInfo == j.bpb.fsInfo && b.backup == j.bpb.backup
  {
    RequestsAreKept(j, plan);
    SealedHeader(j, plan);
  }

  lemma SizesKept(j: Job, plan: Plan, b: Bpb)
    requires j.Valid() && Solution(j) == Ok(plan) && b == Stored(Seal(plan))
    ensures j.bpb.bigFatSecs != 0 ==> Reader.FatSize(b) == j.bpb.bigFatSecs
    ensures Reader.Total(b) <= j.bpb.hugeSectors
  {
    RequestsAreKept(j, plan);
    SealedFields(j, plan);
  }

  lemma MediaKept(j: Job, plan: Plan, b: Bpb)
    requires j.Valid() && Solution(j) == Ok(plan) && b == Stored(Seal(plan))
    ensures b.media == if j.bpb.media != 0 then j.bpb.media else if j.bpb.hiddenSecs == 0 then 0xf0 else 0xf8
  {
    RequestsAreKept(j, plan);
    SealedHeader(j, plan);
  }

  /** The header of the image, as read, is that of the plan, and the job is that of the checked options. */
  lemma ReadJob(o: Options, g: Geometry, j: Job, plan: Plan, v: Volume, img: Bytes, p: Params)
    requires Configure(o, g) == Ok(p) && Posed(o, g) == Ok(j) && Solution(j) == Ok(plan)
    requires Describes(plan, v) && v.Valid() && img == Image(v, v.Sectors())
    ensures |img| >= 512 && Reader.Parse(img) == Stored(Seal(plan))
    ensures ValidParams(p) && JobOf(o.align, p) == Ok(j)
  {
    PosedFrom(o, g, p);
    PosedIsSettled(o, g, j);
    HeaderReadsBack(j, plan, v, img);
  }

  /** What the checked block says of the requests. */
  lemma RequestsChecked(o: Options, g: Geometry, p: Params)
    requires Configure(o, g) == Ok(p)
    ensures o.fatType != 0 ==> p.fat == o.fatType
    ensures o.sectorsPerCluster != 0 ==> p.bpb.secPerClust == o.sectorsPerCluster
    ensures o.reservedSectors != 0 ==> p.bpb.resSectors == o.reservedSectors
    ensures o.fats != 0 ==> p.bpb.fats == o.fats
    ensures o.directoryEntries != 0 ==> p.bpb.rootDirEnts == o.directoryEntries
    ensures o.sectorsPerFat != 0 ==> p.bpb.bigFatSecs == o.sectorsPerFat
    ensures o.media.Some? ==> p.bpb.media == o.media.value >= 0xf0
    ensures p.bpb.fsInfo == o.infoSector && p.bpb.backup == o.backupSector
  {
    OptionsAreHonoured(o, g, p);
  }

  /** Whatever the options and the device, each request is answered in the header. */
  lemma RequestsReadBack(o: Options, g: Geometry, j: Job, plan: Plan, v: Volume, img: Bytes)
    requires Posed(o, g) == Ok(j) && Solution(j) == Ok(plan)
    requires Describes(plan, v) && v.Valid() && img == Image(v, v.Sectors())
    ensures |img| >= 512
    ensures var b := Reader.Parse(img);
            && (o.fatType != 0 ==> v.fat == o.fatType)
            && (o.sectorsPerCluster != 0 ==> b.secPerClust == o.sectorsPerCluster)
            && (o.reservedSectors != 0 ==> b.resSectors == o.reservedSectors)
            && (o.fats != 0 ==> b.fats == o.fats)
            && (o.directoryEntries != 0 ==> b.rootDirEnts == o.directoryEntries)
            && (o.sectorsPerFat != 0 ==> Reader.FatSize(b) == o.sectorsPerFat)
            && (o.media.Some? ==> b.media == o.media.value)
            && (o.infoSector != 0 ==> b.fsInfo == o.infoSector)
            && (o.backupSector != 0 ==> b.backup == o.backupSector)
  {
    var p := Configure(o, g).value;
    ReadJob(o, g, j, plan, v, img, p);
    RequestsChecked(o, g, p);
    JobKeeps(o.align, p, j);
    HeaderKeeps(j, plan, Reader.Parse(img));
    SizesKept(j, plan, Reader.Parse(img));
    MediaKept(j, plan, Reader.Parse(img));
  }

  /** A block size asked for is the size of a cluster. */
  lemma BlockSizeReadsBack(o: Options, g: Geometry, j: Job, plan: Plan, v: Volume, img: Bytes)
    requires Posed(o, g) == Ok(j) && Solution(j) == Ok(plan) && o.blockSize != 0
    requires Describes(plan, v) && v.Valid() && img == Image(v, v.Sectors())
    ensures |img| >= 512
    ensures Reader.Parse(img).secPerClust * Reader.Parse(img).bytesPerSec == o.blockSize
  {
    var p := Configure(o, g).value;
    ReadJob(o, g, j, plan, v, img, p);
    BlockIsHonoured(o, g, p);
    JobKeeps(o.align, p, j);
    HeaderKeeps(j, plan, Reader.Parse(img));
  }

  lemma BlockIsHonoured(o: Options, g: Geometry, p: Params)
    requires Configure(o, g) == Ok(p) && o.blockSize != 0
    ensures p.bpb.secPerClust != 0 && p.bpb.secPerClust * p.bpb.bytesPerSec == o.blockSize
  {
    OptionsAreHonoured(o, g, p);
  }

  /**
   Sector size, heads, track size and hidden sectors are those asked for or the device's. The volume
   ends inside the size asked for, or inside the device, unless the offset is behind that.
   */
  lemma GeometryReadsBack(o: Options, g: Geometry, j: Job, plan: Plan, v: Volume, img: Bytes)
    requires Posed(o, g) == Ok(j) && Solution(j) == Ok(plan) && o.floppy.None?
    requires Describes(plan, v) && v.Valid() && img == Image(v, v.Sectors())
    ensures |img| >= 512
    ensures var b := Reader.Parse(img);
            && b.bytesPerSec == (if o.bytesPerSector != 0 then o.bytesPerSector else g.secSize) > 0
            && b.heads == (if o.heads != 0 then o.heads else g.heads)
            && b.secPerTrack == (if o.sectorsPerTrack != 0 then o.sectorsPerTrack else g.sectorsPerTrack)
            && b.hiddenSecs == (if o.hiddenSectors.Some? && (o.hiddenSectors.value != 0 || FullGeometryGiven(o))
                                then o.hiddenSectors.value else g.hidden)
            && (FullGeometryGiven(o) ==> Reader.Total(b) <= o.size)
            && (!FullGeometryGiven(o) ==>
                  var size := if o.size != 0 then o.size else g.total;
                  o.offset / b.bytesPerSec <= size ==> o.offset / b.bytesPerSec + Reader.Total(b) <= size)
  {
    var p := Configure(o, g).value;
    ReadJob(o, g, j, plan, v, img, p);
    OptionsAreHonoured(o, g, p);
    if FullGeometryGiven(o) {
      GeometryIsTaken(o, g, p);
    } else {
      DeviceIsHonoured(o, g, p);
    }
    JobKeeps(o.align, p, j);
    HeaderKeeps(j, plan, Reader.Parse(img));
    SizesKept(j, plan, Reader.Parse(img));
  }

  /** What was left open: two FATs, 512 root entries but on FAT32, and the media byte of a disk or of a partition. */
  lemma DefaultsReadBack(o: Options, g: Geometry, j: Job, plan: Plan, v: Volume, img: Bytes)
    requires Posed(o, g) == Ok(j) && Solution(j) == Ok(plan) && o.floppy.None?
    requires Describes(plan, v) && v.Valid() && img == Image(v, v.Sectors())
    ensures |img| >= 512
    ensures var b := Reader.Parse(img);
            && (o.fats == 0 ==> b.fats == 2)
            && (o.directoryEntries == 0 ==> b.rootDirEnts == if v.fat == 32 then 0 else 512)
            && (o.media.None? ==> b.media == if b.hiddenSecs == 0 then 0xf0 else 0xf8)
  {
    var p := Configure(o, g).value;
    ReadJob(o, g, j, plan, v, img, p);
    OpenRequests(o, g, p);
    JobKeeps(o.align, p, j);
    HeaderKeeps(j, plan, Reader.Parse(img));
    MediaKept(j, plan, Reader.Parse(img));
  }

  lemma YearBits(x: int, low: nat)
    requires low < 0x200
    ensures (x * 0x200 + low) % 0x1_0000 == x % 0x80 * 0x200 + low
  {
    var q, r := x / 0x80, x % 0x80;
    assert x * 0x200 + low == q * 0x1_0000 + (r * 0x200 + low);
  }

  lemma DateBits(year: nat, month: nat, day: nat, date: nat)
    requires year < 0x80 && month < 0x10 && day < 0x20 && date == year * 0x200 + (month * 0x20 + day)
    ensures Reader.Date(date) == (1980 + year, month, day)
  {
    DivUnique(date, 0x200, year);
    DivUnique(date, 0x20, year * 0x10 + month);
  }

  /** The date reads back exactly from 1980 to 2107, the time to the even second. */
  lemma DateReadsBackExactly(stamp: Stamp)
    requires stamp.Valid()
    ensures Reader.Date(stamp.Date()) == (stamp.year, stamp.month, stamp.day) <==> 1980 <= stamp.year <= 2107
  {
    var year := (stamp.year - 1980) % 0x80;
    YearBits(stamp.year - 1980, stamp.month * 0x20 + stamp.day);
    DateBits(year, stamp.month, stamp.day, stamp.Date());
  }

  lemma TimeReadsBack(stamp: Stamp)
    requires stamp.Valid()
    ensures Reader.Time(stamp.Time()) == (stamp.hour, stamp.minute, stamp.second / 2 * 2)
  {
    TimeBits(stamp.hour, stamp.minute, stamp.second / 2, stamp.Time());
  }

  lemma TimeBits(hour: nat, minute: nat, half: nat, time: nat)
    requires minute < 0x40 && half < 0x20 && time == hour * 0x800 + minute * 0x20 + half
    ensures Reader.Time(time) == (hour, minute, half * 2)
  {
    DivUnique(time, 0x800, hour);
    DivUnique(time, 0x20, hour * 0x40 + minute);
  }

  /** The text of a name field is the label in capitals. */
  ghost predicate InCapitals(s: Bytes, field: Bytes) {
    exists t: Bytes :: Capitals(s, t) && Reader.NameText(field) == Reader.Text(t)
  }

  /** A boot sector has the volume id and the names that were asked for. */
  ghost predicate NamesAnswered(o: Options, s: Bytes, at: nat) {
    && 11 <= at && at + 26 <= |s|
    && (o.volumeId.Some? ==> Reader.Read4(s, at + 3) == o.volumeId.value)
    && (o.oem.Some? ==> Reader.Text(s[3..11]) == Reader.Text(o.oem.value))
    && (o.volumeLabel.Some? ==> InCapitals(o.volumeLabel.value, s[at + 7..at + 18]))
  }

  /** A directory sector begins with the label that was asked for, and the time. */
  ghost predicate LabelAnswered(o: Options, stamp: Stamp, s: Bytes)
    requires stamp.Valid()
  {
    o.volumeLabel.Some? ==>
      && 32 <= |s| && InCapitals(o.volumeLabel.value, s[..11])
      && Reader.Read2(s, 22) == stamp.Time() && Reader.Read2(s, 24) == stamp.Date()
  }

  lemma ConfiguredNames(o: Options, g: Geometry)
    requires Posed(o, g).Ok?
    ensures (o.volumeLabel.Some? ==> OkLabel(o.volumeLabel.value)) && (o.oem.Some? ==> |o.oem.value| <= 8)
  {
  }

  lemma BootNames(o: Options, plan: Plan, stamp: Stamp, v: Volume)
    requires stamp.Valid() && v == VolumeOf(o, plan, stamp) && v.Valid()
    requires (o.volumeLabel.Some? ==> OkLabel(o.volumeLabel.value)) && (o.oem.Some? ==> |o.oem.value| <= 8)
    ensures NamesAnswered(o, BootSector(v), if v.fat == 32 then 64 else 36)
  {
    NamesReadBack(v);
    TextsReadBack(v);
  }

  lemma LabelNames(o: Options, plan: Plan, stamp: Stamp, v: Volume)
    requires stamp.Valid() && v == VolumeOf(o, plan, stamp) && v.Valid()
    requires o.volumeLabel.Some? && OkLabel(o.volumeLabel.value)
    ensures LabelAnswered(o, stamp, LabelSector(v))
  {
    LabelReadsBack(v);
    LabelText(o.volumeLabel.value);
  }

  /** An image with the volume id and the names that were asked for in its first sector, and the label in its root. */
  ghost predicate ShowsNames(o: Options, img: Bytes, v: Volume) {
    && v.bpb.bytesPerSec <= |img|
    && NamesAnswered(o, img[..v.bpb.bytesPerSec], if v.fat == 32 then 64 else 36)
  }

  ghost predicate ShowsLabel(o: Options, stamp: Stamp, img: Bytes, v: Volume)
    requires stamp.Valid()
  {
    && (v.Dir() + 1) * v.bpb.bytesPerSec <= |img|
    && LabelAnswered(o, stamp, Reader.SectorAt(img, v.bpb.bytesPerSec, v.Dir()))
  }

  /** Every image has, unless the FSInfo copy takes the place of the label. */
  lemma NamesAreAnswered(o: Options, g: Geometry, plan: Plan, stamp: Stamp, v: Volume, img: Bytes)
    requires Posed(o, g).Ok? && stamp.Valid() && v == VolumeOf(o, plan, stamp) && v.Valid() && Shows(img, v)
    ensures ShowsNames(o, img, v)
    ensures v.Dir() < v.Sectors() && !InfoHitsRoot(v) ==> ShowsLabel(o, stamp, img, v)
  {
    ConfiguredNames(o, g);
    ReservedInside(v, 0);
    FirstBytes(v, img);
    BootNames(o, plan, stamp, v);
    if v.Dir() < v.Sectors() && !InfoHitsRoot(v) {
      LabelIsShown(o, plan, stamp, v, img);
    }
  }

  lemma FirstBytes(v: Volume, img: Bytes)
    requires v.Valid() && Shows(img, v) && 0 < v.Sectors()
    ensures v.bpb.bytesPerSec <= |img| && img[..v.bpb.bytesPerSec] == BootSector(v)
  {
    assert ShowsSector(img, v, 0);
  }

  lemma LabelIsShown(o: Options, plan: Plan, stamp: Stamp, v: Volume, img: Bytes)
    requires stamp.Valid() && v == VolumeOf(o, plan, stamp) && v.Valid() && Shows(img, v)
    requires o.volumeLabel.Some? ==> OkLabel(o.volumeLabel.value)
    requires v.Dir() < v.Sectors() && !InfoHitsRoot(v)
    ensures ShowsLabel(o, stamp, img, v)
  {
    assert ShowsSector(img, v, v.Dir());
    if o.volumeLabel.Some? {
      LabelReadsBackExactly(v, img);
      LabelNames(o, plan, stamp, v);
    }
  }
}
