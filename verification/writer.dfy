/**
 The sector composer and the chunked output of lines 628-787.
 Line numbers are those of mkfs_msdos.c.
 */
module Writer {
  import opened Machine
  import opened Fat
  import opened Sector
  import Reader

  /** The bytes of s with b laid over them at offset o. */
  function Splice(s: Bytes, o: nat, b: Bytes): (r: Bytes)
    requires o + |b| <= |s|
    ensures |r| == |s|
  {
    seq(|s|, i requires 0 <= i < |s| => if o <= i < o + |b| then b[i - o] else s[i])
  }

  /** Two stores next to each other are one store. */
  lemma SpliceNext(s: Bytes, o: nat, a: Bytes, b: Bytes)
    requires o + |a| + |b| <= |s|
    ensures Splice(Splice(s, o, a), o + |a|, b) == Splice(s, o, a + b)
  {
  }

  /** Storing what is already there changes nothing. */
  lemma SpliceSame(s: Bytes, o: nat, a: Bytes, b: Bytes)
    requires o + |a| + |b| <= |s| && forall k :: 0 <= k < |b| ==> s[o + |a| + k] == b[k]
    ensures Splice(s, o, a) == Splice(s, o, a + b)
  {
  }

  /** Nothing but zeros from lo up to hi. */
  predicate ZeroIn(s: Bytes, lo: nat, hi: nat) {
    hi <= |s| && forall k :: lo <= k < hi ==> s[k] == 0
  }

  /** What has been written to the device; a write may fail or stop short anywhere. */
  class Device {
    var data: Bytes
    /** Writes that failed or stopped short. */
    ghost var faults: nat

    constructor ()
      ensures data == [] && faults == 0
    {
      data := [];
      faults := 0;
    }

    /** write(2): -1, or the number of bytes taken from the front of the buffer. */
    method Write(buf: array<U8>, n: nat) returns (k: int)
      requires n <= buf.Length
      modifies this
      ensures -1 <= k <= n
      ensures data == old(data) + buf[..Max(k, 0)]
      ensures faults == old(faults) + if k == n then 0 else 1
    {
      k := *;
      if !(-1 <= k <= n) {
        k := n;
      }
      if k != n {
        faults := faults + 1;
      }
      if k > 0 {
        data := data + buf[..k];
      } else {
        assert buf[..0] == [];
      }
    }
  }

  /** physbuf, img and the output they feed. */
  class SectorWriter {
    const bps: nat
    const buf: array<U8>
    const dev: Device
    var img: nat

    /** The buffer is a whole number of sectors, and img points at one of them. */
    predicate Valid()
      reads this
    {
      && IsBps(bps)
      && buf.Length > MAXBPS && buf.Length % bps == 0
      && img % bps == 0 && img < buf.Length
    }

    constructor (dev: Device, bps: nat, chunk: nat)
      requires IsBps(bps) && PowerOf2(chunk) && chunk > MAXBPS
      ensures Valid() && fresh(buf)
      ensures this.bps == bps && this.dev == dev && buf.Length == chunk && img == 0
    {
      ChunkHoldsSectors(chunk, bps);
      this.bps, this.dev, this.img := bps, dev, 0;
      this.buf := new U8[chunk](i => 0);
    }

    /** The current sector lies inside the buffer. */
    lemma SectorInside()
      requires Valid()
      ensures img + bps <= buf.Length
    {
      NextMultiple(img, buf.Length, bps);
    }

    function Current(): (s: Bytes)
      requires Valid()
      reads this, buf
      ensures |s| == bps
    {
      SectorInside();
      buf[img..img + bps]
    }

    /** memset(img, 0, bpb.bpbBytesPerSec) */
    method Clear()
      requires Valid()
      modifies buf
      ensures Current() == Zeros(bps) && buf[..img] == old(buf[..img])
    {
      SectorInside();
      forall i | img <= i < img + bps {
        buf[i] := 0;
      }
      assert forall i :: 0 <= i < bps ==> Current()[i] == buf[img + i] == 0;
    }

    /** Store bytes one by one from an offset of the current sector. */
    method Store(off: nat, s: Bytes)
      requires Valid() && off + |s| <= bps
      modifies buf
      ensures Current() == Splice(old(Current()), off, s) && buf[..img] == old(buf[..img])
    {
      SectorInside();
      for i := 0 to |s|
        invariant forall k :: 0 <= k < buf.Length ==>
                    buf[k] == if img + off <= k < img + off + i then s[k - img - off] else old(buf[k])
      {
        buf[img + off + i] := s[i];
      }
    }

    /** mk2 and mk4 are stores of two and four little-endian bytes. */
    method Mk1(off: nat, x: nat)
      requires Valid() && off < bps
      modifies buf
      ensures Current() == Splice(old(Current()), off, [Byte0(x)]) && buf[..img] == old(buf[..img])
    {
      SectorInside();
      buf[img + off] := Byte0(x);
    }

    method Mk2(off: nat, x: nat)
      requires Valid() && off + 2 <= bps
      modifies buf
      ensures Current() == Splice(old(Current()), off, Le2(x)) && buf[..img] == old(buf[..img])
    {
      SectorInside();
      buf[img + off], buf[img + off + 1] := Byte0(x), Byte1(x);
    }

    method Mk4(off: nat, x: nat)
      requires Valid() && off + 4 <= bps
      modifies buf
      ensures Current() == Splice(old(Current()), off, Le4(x)) && buf[..img] == old(buf[..img])
    {
      SectorInside();
      buf[img + off], buf[img + off + 1] := Byte0(x), Byte1(x);
      buf[img + off + 2], buf[img + off + 3] := Byte2(x), Byte3(x);
    }

    /** Lines 682-688: the parameter block up to the media byte. */
    method PutSizes(b: Bpb)
      requires Valid()
      modifies buf
      ensures Current() == Splice(old(Current()), 11, SizeBytes(b)) && buf[..img] == old(buf[..img])
    {
      ghost var s, a := Current(), [];
      Mk2(11, b.bytesPerSec);
      a := Le2(b.bytesPerSec);
      Mk1(13, b.secPerClust);
      SpliceNext(s, 11, a, [Byte0(b.secPerClust)]);
      a := a + [Byte0(b.secPerClust)];
      Mk2(14, b.resSectors);
      SpliceNext(s, 11, a, Le2(b.resSectors));
      a := a + Le2(b.resSectors);
      Mk1(16, b.fats);
      SpliceNext(s, 11, a, [Byte0(b.fats)]);
      a := a + [Byte0(b.fats)];
      Mk2(17, b.rootDirEnts);
      SpliceNext(s, 11, a, Le2(b.rootDirEnts));
      a := a + Le2(b.rootDirEnts);
      Mk2(19, b.sectors);
      SpliceNext(s, 11, a, Le2(b.sectors));
      a := a + Le2(b.sectors);
      Mk1(21, b.media);
      SpliceNext(s, 11, a, [Byte0(b.media)]);
      a := a + [Byte0(b.media)];
    }

    /** Lines 689-693: the rest of it. */
    method PutDrive(b: Bpb)
      requires Valid()
      modifies buf
      ensures Current() == Splice(old(Current()), 22, DriveBytes(b)) && buf[..img] == old(buf[..img])
    {
      ghost var s, a := Current(), [];
      Mk2(22, b.fatSecs);
      a := Le2(b.fatSecs);
      Mk2(24, b.secPerTrack);
      SpliceNext(s, 22, a, Le2(b.secPerTrack));
      a := a + Le2(b.secPerTrack);
      Mk2(26, b.heads);
      SpliceNext(s, 22, a, Le2(b.heads));
      a := a + Le2(b.heads);
      Mk4(28, b.hiddenSecs);
      SpliceNext(s, 22, a, Le4(b.hiddenSecs));
      a := a + Le4(b.hiddenSecs);
      Mk4(32, b.hugeSectors);
      SpliceNext(s, 22, a, Le4(b.hugeSectors));
      a := a + Le4(b.hugeSectors);
    }

    /** Lines 696-703: struct bsxbpb; its reserved bytes keep the zeros they have. */
    method PutBigBpb(b: Bpb)
      requires Valid() && ZeroIn(Current(), 36, 64)
      modifies buf
      ensures Current() == Splice(old(Current()), 36, BigBpbBytes(b)) && buf[..img] == old(buf[..img])
    {
      ghost var s, a := Current(), [];
      Mk4(36, b.bigFatSecs);
      a := Le4(b.bigFatSecs);
      Mk2(40, 0);
      SpliceNext(s, 36, a, Le2(0));
      a := a + Le2(0);
      Mk2(42, 0);
      SpliceNext(s, 36, a, Le2(0));
      a := a + Le2(0);
      Mk4(44, b.rootClust);
      SpliceNext(s, 36, a, Le4(b.rootClust));
      a := a + Le4(b.rootClust);
      Mk2(48, b.fsInfo);
      SpliceNext(s, 36, a, Le2(b.fsInfo));
      a := a + Le2(b.fsInfo);
      Mk2(50, b.backup);
      SpliceNext(s, 36, a, Le2(b.backup));
      a := a + Le2(b.backup);
      SpliceZeros(s, 36, a, 12);
    }

    /** Lines 706-717: the extended signature and the volume id. */
    method PutId(v: Volume, x1: nat)
      requires Valid() && x1 + 26 <= bps
      modifies buf
      ensures Current() == Splice(old(Current()), x1 + 2, IdBytes(v)) && buf[..img] == old(buf[..img])
    {
      ghost var s := Current();
      Mk1(x1 + 2, 0x29);
      Mk4(x1 + 3, v.id);
      SpliceNext(s, x1 + 2, [Byte0(0x29)], Le4(v.id));
    }

    /** Lines 718-720: the volume label and the FAT type's name. */
    method PutNames(v: Volume, x1: nat)
      requires Valid() && x1 + 26 <= bps
      modifies buf
      ensures Current() == Splice(old(Current()), x1 + 7, NameBytes(v)) && buf[..img] == old(buf[..img])
    {
      ghost var s := Current();
      var name := LabelBytes(if v.volumeLabel.Some? then v.volumeLabel.value else NO_NAME);
      Store(x1 + 7, name);
      Store(x1 + 18, TypeName(v.fat));
      SpliceNext(s, x1 + 7, name, TypeName(v.fat));
    }

    /** Lines 705-720: struct bsx at x1; the drive number keeps its zero. */
    method PutExtended(v: Volume, x1: nat)
      requires Valid() && x1 + 26 <= bps && ZeroIn(Current(), x1, x1 + 2)
      modifies buf
      ensures Current() == Splice(old(Current()), x1, ExtendedBytes(v)) && buf[..img] == old(buf[..img])
    {
      ghost var s := Current();
      PutId(v, x1);
      PutNames(v, x1);
      SpliceNext(s, x1 + 2, IdBytes(v), NameBytes(v));
      SpliceBehind(s, x1, [0, 0], IdBytes(v) + NameBytes(v));
    }

    /** Lines 682-693: struct bsbpb. */
    method PutBpb(b: Bpb)
      requires Valid()
      modifies buf
      ensures Current() == Splice(old(Current()), 11, BpbBytes(b)) && buf[..img] == old(buf[..img])
    {
      ghost var s := Current();
      PutSizes(b);
      PutDrive(b);
      SpliceNext(s, 11, SizeBytes(b), DriveBytes(b));
    }

    /** Lines 680-720: everything between the jump and the boot code. */
    method PutParameters(v: Volume) returns (x1: nat)
      requires Valid() && v.Valid() && Current() == Zeros(bps)
      modifies buf
      ensures x1 == HeaderLength(v.fat)
      ensures Current() == Splice(Zeros(bps), 11, Parameters(v)) && buf[..img] == old(buf[..img])
    {
      ghost var z, a := Zeros(bps), BpbBytes(v.bpb);
      PutBpb(v.bpb);
      x1 := 36;
      if v.fat == 32 {
        ZerosBehind(bps, 11, a);
        PutBigBpb(v.bpb);
        SpliceNext(z, 11, a, BigBpbBytes(v.bpb));
        a := a + BigBpbBytes(v.bpb);
        x1 := 64;
      }
      ZerosBehind(bps, 11, a);
      PutExtended(v, x1);
      SpliceNext(z, 11, a, ExtendedBytes(v));
      assert a + ExtendedBytes(v) == Parameters(v);
      x1 := x1 + 26;
    }

    /** Lines 723-728: the jump over the headers, and the OEM name. */
    method PutJump(v: Volume, x1: nat)
      requires Valid() && x1 == HeaderLength(v.fat)
      modifies buf
      ensures Current() == Splice(old(Current()), 0, JumpBytes(v)) && buf[..img] == old(buf[..img])
    {
      ghost var s, a := Current(), [Byte0(0xeb)];
      Mk1(0, 0xeb);
      Mk1(1, x1 - 2);
      SpliceNext(s, 0, a, [Byte0(x1 - 2)]);
      a := a + [Byte0(x1 - 2)];
      Mk1(2, 0x90);
      SpliceNext(s, 0, a, [Byte0(0x90)]);
      a := a + [Byte0(0x90)];
      var oem := Padded(if v.oem.Some? then v.oem.value else DEFAULT_OEM, 8);
      Store(3, oem);
      SpliceNext(s, 0, a, oem);
      assert a + oem == JumpBytes(v);
    }

    /** Lines 680-731: a boot sector. */
    method PutBoot(v: Volume)
      requires Valid() && v.Valid() && v.bpb.bytesPerSec == bps && Current() == Zeros(bps)
      modifies buf
      ensures Current() == BootSector(v) && buf[..img] == old(buf[..img])
    {
      var x1 := PutParameters(v);
      PutJump(v, x1);
      Store(x1, BOOTCODE);
      Mk2(510, 0xaa55);
      BootAssembled(v);
    }

    /** Lines 737-739: the free-cluster fields of an FSInfo sector. */
    method PutFree()
      requires Valid()
      modifies buf
      ensures Current() == Splice(old(Current()), 484, Le4(0x61417272) + Le4(0xffff_ffff) + Le4(0xffff_ffff))
      ensures buf[..img] == old(buf[..img])
    {
      ghost var s, a, b := Current(), Le4(0x61417272), Le4(0xffff_ffff);
      Mk4(MINBPS - 28, 0x61417272);
      Mk4(MINBPS - 24, 0xffff_ffff);
      SpliceNext(s, 484, a, b);
      Mk4(MINBPS - 20, 0xffff_ffff);
      SpliceNext(s, 484, a + b, b);
    }

    /** Lines 736-740: an FSInfo sector. */
    method PutInfo()
      requires Valid() && Current() == Zeros(bps)
      modifies buf
      ensures Current() == InfoSector(bps) && buf[..img] == old(buf[..img])
    {
      Mk4(0, 0x41615252);
      PutFree();
      Mk2(MINBPS - 2, 0xaa55);
      InfoAssembled(bps, Le4(0x41615252), Le4(0x61417272) + Le4(0xffff_ffff) + Le4(0xffff_ffff), Le2(0xaa55));
      MagicBytes();
    }

    /** One more byte of those at the start of the sector. */
    method PutNext(x: nat, byte: U8, ghost head: Bytes)
      requires Valid() && x < |head| <= bps && head[x] == byte && Current() == Splice(Zeros(bps), 0, head[..x])
      modifies buf
      ensures Current() == Splice(Zeros(bps), 0, head[..x + 1]) && buf[..img] == old(buf[..img])
    {
      Mk1(x, byte);
      SpliceNext(Zeros(bps), 0, head[..x], [byte]);
      assert head[..x + 1] == head[..x] + [byte];
    }

    /** Lines 745-747: the reserved entries of a FAT. */
    method PutFatHead(v: Volume)
      requires Valid() && v.Valid() && v.bpb.bytesPerSec == bps && Current() == Zeros(bps)
      modifies buf
      ensures Current() == FatStart(v) && buf[..img] == old(buf[..img])
    {
      ghost var head := FatHead(v.fat, v.bpb.media);
      Mk1(0, v.bpb.media);
      var x := 1;
      var n := v.fat * (if v.fat == 32 then 3 else 2) / 8;
      while x < n
        invariant 1 <= x <= n == |head|
        invariant Current() == Splice(Zeros(bps), 0, head[..x])
        invariant buf[..img] == old(buf[..img])
      {
        PutNext(x, if v.fat == 32 && x % 4 == 3 then 0x0f else 0xff, head);
        x := x + 1;
      }
      assert head[..n] == head;
      PrefixAssembled(bps, head);
    }

    /** Lines 752-759: the time and date of a directory entry. */
    method PutStamp(v: Volume)
      requires Valid()
      modifies buf
      ensures Current() == Splice(old(Current()), 22, Le2(v.time) + Le2(v.date)) && buf[..img] == old(buf[..img])
    {
      ghost var s := Current();
      Mk2(22, v.time);
      Mk2(24, v.date);
      SpliceNext(s, 22, Le2(v.time), Le2(v.date));
    }

    /** Lines 749-751: the name and the attribute of the label entry. */
    method PutLabelName(volumeLabel: Bytes)
      requires Valid() && Current() == Zeros(bps)
      modifies buf
      ensures Current() == Splice(Zeros(bps), 0, LabelBytes(volumeLabel) + [VOLUME_ATTRIBUTE])
      ensures buf[..img] == old(buf[..img])
    {
      var name := LabelBytes(volumeLabel);
      Store(0, name);
      Mk1(11, VOLUME_ATTRIBUTE);
      SpliceNext(Zeros(bps), 0, name, [VOLUME_ATTRIBUTE]);
    }

    /** Lines 749-759: the volume label as the first directory entry. */
    method PutLabel(v: Volume)
      requires Valid() && v.Valid() && v.bpb.bytesPerSec == bps && v.volumeLabel.Some? && Current() == Zeros(bps)
      modifies buf
      ensures Current() == LabelSector(v) && buf[..img] == old(buf[..img])
    {
      ghost var name := LabelBytes(v.volumeLabel.value);
      PutLabelName(v.volumeLabel.value);
      PutStamp(v);
      LabelAssembled(bps, name + [VOLUME_ATTRIBUTE], Le2(v.time) + Le2(v.date));
    }

    /** Lines 676-760 without a bootstrap file: compose the sector of the volume at lsn. */
    method Compose(v: Volume, lsn: nat)
      requires Valid() && v.Valid() && v.bpb.bytesPerSec == bps
      modifies buf
      ensures Current() == Contents(v, lsn) && buf[..img] == old(buf[..img])
    {
      Clear();
      if lsn == 0 || (v.fat == 32 && v.bpb.backup != MAXU16 && lsn == v.bpb.backup) {
        PutBoot(v);
      } else if v.fat == 32 && v.bpb.fsInfo != MAXU16
                && (lsn == v.bpb.fsInfo || (v.bpb.backup != MAXU16 && lsn == v.bpb.backup + v.bpb.fsInfo)) {
        PutInfo();
      } else if v.bpb.resSectors <= lsn < v.Dir() && (lsn - v.bpb.resSectors) % Reader.FatSize(v.bpb) == 0 {
        PutFatHead(v);
      } else if lsn == v.Dir() && v.volumeLabel.Some? {
        PutLabel(v);
      }
    }

    /** Lines 765-773: move on to the next sector, writing the buffer out when it is full. */
    method Advance() returns (ok: bool)
      requires Valid()
      modifies this`img, dev
      ensures Valid()
      ensures old(dev.data) <= dev.data && dev.faults == old(dev.faults) + if ok then 0 else 1
      ensures ok ==> dev.data + buf[..img] == old(dev.data + buf[..img + bps])
      ensures !ok ==> dev.data <= old(dev.data + buf[..img + bps])
    {
      SectorInside();
      NextMultiple(img, buf.Length, bps);
      img := img + bps;
      ok := true;
      if img >= buf.Length {
        var n := dev.Write(buf, buf.Length);
        ok := n == buf.Length;
        img := 0;
        assert ok ==> buf[..img] == [];
      }
    }

    /** One trip round the sector loop, with `done` standing for all output so far, written or buffered. */
    method PutSector(v: Volume, lsn: nat, ghost done: Bytes) returns (ok: bool)
      requires Valid() && v.Valid() && v.bpb.bytesPerSec == bps
      requires dev.data + buf[..img] == done
      modifies this`img, buf, dev
      ensures Valid()
      ensures old(dev.data) <= dev.data && dev.faults == old(dev.faults) + if ok then 0 else 1
      ensures ok ==> dev.data + buf[..img] == done + Contents(v, lsn)
      ensures !ok ==> dev.data <= done + Contents(v, lsn)
    {
      Compose(v, lsn);
      SectorInside();
      ghost var sector := Contents(v, lsn);
      assert dev.data + buf[..img + bps] == done + sector by {
        assert buf[..img + bps] == buf[..img] + buf[img..img + bps];
        Regroup(dev.data, buf[..img], sector);
      }
      ok := Advance();
    }

    /** Lines 779-787: write what is left in the buffer. */
    method Flush() returns (ok: bool)
      requires Valid()
      modifies dev
      ensures dev.faults == old(dev.faults) + if ok then 0 else 1
      ensures ok ==> dev.data == old(dev.data) + buf[..img]
      ensures !ok ==> old(dev.data) <= dev.data <= old(dev.data) + buf[..img]
    {
      ok := true;
      if img != 0 {
        var n := dev.Write(buf, img);
        ok := n == img;
      } else {
        assert buf[..img] == [];
      }
    }
  }

  /**
   Lines 628-787: compose the sectors in order and write them out in chunks. The device
   receives exactly the concatenation of the sectors, or, when a write fails, and only then, a
   part of it from the start.
   */
  method WriteVolume(v: Volume, chunk: nat, dev: Device) returns (ok: bool)
    requires v.Valid() && PowerOf2(chunk) && chunk > MAXBPS
    modifies dev
    ensures dev.faults == old(dev.faults) + if ok then 0 else 1
    ensures ok ==> dev.data == old(dev.data) + Image(v, v.Sectors())
    ensures !ok ==> old(dev.data) <= dev.data <= old(dev.data) + Image(v, v.Sectors())
  {
    var w := new SectorWriter(dev, v.bpb.bytesPerSec, chunk);
    var lsn := 0;
    ok := true;
    assert w.buf[..w.img] == [];
    ghost var was, done := dev.data, dev.data;
    assert done == was + Image(v, 0);
    while lsn < v.Sectors() && ok
      invariant 0 <= lsn <= v.Sectors() && fresh(w.buf) && fresh(w)
      invariant w.Valid() && w.bps == v.bpb.bytesPerSec && w.dev == dev
      invariant old(dev.data) <= dev.data && dev.faults == old(dev.faults) + if ok then 0 else 1
      invariant done == was + Image(v, lsn)
      invariant if ok then dev.data + w.buf[..w.img] == done else dev.data <= done
    {
      ok := w.PutSector(v, lsn, done);
      done := done + Contents(v, lsn);
      lsn := lsn + 1;
      ImageStep(v, lsn, was);
    }
    if ok {
      ok := w.Flush();
    } else {
      ImageGrows(v, lsn, v.Sectors());
    }
  }

  lemma Regroup(a: Bytes, b: Bytes, c: Bytes)
    ensures a + (b + c) == a + b + c
  {
  }

  lemma ImageStep(v: Volume, lsn: nat, before: Bytes)
    requires v.Valid() && lsn > 0
    ensures before + Image(v, lsn) == before + Image(v, lsn - 1) + Contents(v, lsn - 1)
  {
  }

  /** The start of an image is the start of every longer one. */
  lemma ImageGrows(v: Volume, a: nat, b: nat)
    requires v.Valid() && a <= b
    ensures Image(v, a) <= Image(v, b)
    decreases b - a
  {
    if a < b {
      ImageGrows(v, a, b - 1);
    }
  }

  lemma BootAssembled(v: Volume)
    requires v.Valid()
    ensures var z, hl := Zeros(v.bpb.bytesPerSec), HeaderLength(v.fat);
            Splice(Splice(Splice(Splice(z, 11, Parameters(v)), 0, JumpBytes(v)), hl, BOOTCODE), 510, Le2(0xaa55)) ==
            BootSector(v)
  {
    FourStores(v.bpb.bytesPerSec, JumpBytes(v), Parameters(v), BOOTCODE, Le2(0xaa55));
    MagicBytes();
  }

  /** The stores of a boot sector, in their order: what follows the jump, the jump, the code, the signature. */
  lemma FourStores(n: nat, j: Bytes, p: Bytes, c: Bytes, m: Bytes)
    requires |j| + |p| + |c| <= 510 && |m| == 2 && n >= 512
    ensures Splice(Splice(Splice(Splice(Zeros(n), |j|, p), 0, j), |j| + |p|, c), 510, m) ==
            j + p + c + Zeros(510 - (|j| + |p|) - |c|) + m + Zeros(n - 512)
  {
    var jp := j + p;
    TwoStores(n, j, p);
    SpliceIntoZeros(jp, n - |jp|, 0, c);
    NoGap(jp);
    SpliceIntoZeros(jp + c, n - |jp| - |c|, 510 - |jp| - |c|, m);
  }

  lemma NoGap(s: Bytes)
    ensures s + Zeros(0) == s
  {
  }

  lemma TwoStores(n: nat, j: Bytes, p: Bytes)
    requires |j| + |p| <= n
    ensures Splice(Splice(Zeros(n), |j|, p), 0, j) == j + p + Zeros(n - |j + p|)
  {
    SpliceIntoZeros([], n, |j|, p);
    HeadReplaced(Zeros(|j|), p, Zeros(n - |j| - |p|), j);
  }

  lemma MagicBytes()
    ensures Le2(0xaa55) == [0x55, 0xaa]
  {
  }

  lemma HeadReplaced(old': Bytes, mid: Bytes, rest: Bytes, head: Bytes)
    requires |old'| == |head|
    ensures Splice(old' + mid + rest, 0, head) == head + mid + rest
  {
    assert (old' + mid + rest)[|head|..] == mid + rest;
  }

  lemma PrefixAssembled(bps: nat, a: Bytes)
    requires |a| <= bps
    ensures Splice(Zeros(bps), 0, a) == a + Zeros(bps - |a|)
  {
    SpliceIntoZeros([], bps, 0, a);
    assert Zeros(0) + a == a;
  }

  lemma LabelAssembled(bps: nat, a: Bytes, t: Bytes)
    requires |a| == 12 && |t| == 4 && bps >= 26
    ensures Splice(Splice(Zeros(bps), 0, a), 22, t) == a + Zeros(10) + t + Zeros(bps - 26)
  {
    PrefixAssembled(bps, a);
    SpliceIntoZeros(a, bps - 12, 10, t);
  }

  lemma InfoAssembled(bps: nat, a: Bytes, b: Bytes, m: Bytes)
    requires IsBps(bps) && |a| == 4 && |b| == 12 && |m| == 2
    ensures Splice(Splice(Splice(Zeros(bps), 0, a), 484, b), 510, m) ==
            a + Zeros(480) + b + Zeros(14) + m + Zeros(bps - MINBPS)
  {
    PrefixAssembled(bps, a);
    SpliceIntoZeros(a, bps - 4, 480, b);
    SpliceIntoZeros(a + Zeros(480) + b, bps - 496, 14, m);
  }

  /** Laying bytes into the zeros behind a prefix. */
  lemma SpliceIntoZeros(p: Bytes, n: nat, gap: nat, b: Bytes)
    requires gap + |b| <= n
    ensures Splice(p + Zeros(n), |p| + gap, b) == p + Zeros(gap) + b + Zeros(n - gap - |b|)
    ensures p + Zeros(0) == p && [] + Zeros(n) == Zeros(n)
    ensures [] + Zeros(gap) + b + Zeros(n - gap - |b|) == Zeros(gap) + b + Zeros(n - gap - |b|)
  {
    assert [] + Zeros(gap) == Zeros(gap);
  }

  lemma SpliceBehind(s: Bytes, o: nat, a: Bytes, b: Bytes)
    requires o + |a| + |b| <= |s| && forall k :: 0 <= k < |a| ==> s[o + k] == a[k]
    ensures Splice(s, o + |a|, b) == Splice(s, o, a + b)
  {
  }

  lemma ZerosBehind(n: nat, o: nat, a: Bytes)
    requires o + |a| <= n
    ensures ZeroIn(Splice(Zeros(n), o, a), o + |a|, n)
  {
  }

  /** A store that ends in zeros where there are zeros already. */
  lemma SpliceZeros(s: Bytes, o: nat, a: Bytes, n: nat)
    requires o + |a| + n <= |s| && ZeroIn(s, o + |a|, o + |a| + n)
    ensures Splice(s, o, a) == Splice(s, o, a + Zeros(n))
  {
    SpliceSame(s, o, a, Zeros(n));
  }

  lemma ChunkHoldsSectors(chunk: nat, bps: nat)
    requires IsBps(bps) && PowerOf2(chunk) && chunk > MAXBPS
    ensures chunk % bps == 0
  {
    assert PowerOf2(512) && PowerOf2(1024) && PowerOf2(2048) && PowerOf2(4096);
    PowerOf2Divides(bps, chunk);
  }

  /** Below a multiple of b, a multiple of b has room for another b. */
  lemma NextMultiple(a: nat, c: nat, b: nat)
    requires b > 0 && a % b == 0 && c % b == 0 && a < c
    ensures a + b <= c && (a + b) % b == 0
  {
    var p, q := a / b, c / b;
    assert a == p * b && c == q * b;
    if q <= p {
      MulMono(q, p, b);
    }
    MulMono(p + 1, q, b);
    DivUnique(a + b, b, p + 1);
  }
}
