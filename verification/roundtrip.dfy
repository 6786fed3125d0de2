/** Reading back what was written. */
module RoundTrip {
  import opened Machine
  import opened Fat
  import opened Sector
  import Reader

  lemma ReadsLe2(s: Bytes, o: nat, x: nat)
    requires o + 2 <= |s| && x <= MAXU16
    requires s[o] == Byte0(x) && s[o + 1] == Byte1(x)
    ensures Reader.Read2(s, o) == x
  {
  }

  lemma ReadsLe4(s: Bytes, o: nat, x: nat)
    requires o + 4 <= |s| && x < TWO32
    requires s[o] == Byte0(x) && s[o + 1] == Byte1(x) && s[o + 2] == Byte2(x) && s[o + 3] == Byte3(x)
    ensures Reader.Read4(s, o) == x
  {
    LowWord(x, x / 0x1_0000, x % 0x1_0000);
    ReadsLe2(s, o, x % 0x1_0000);
    ReadsLe2(s, o + 2, x / 0x1_0000);
  }

  /** Two bytes keep 16 bits of any number (mk2). */
  lemma ReadsCut(s: Bytes, o: nat, x: nat)
    requires o + 2 <= |s| && s[o] == Byte0(x) && s[o + 1] == Byte1(x)
    ensures Reader.Read2(s, o) == x % 0x1_0000
  {
    LowWord(x, x / 0x1_0000, x % 0x1_0000);
    ReadsLe2(s, o, x % 0x1_0000);
  }

  lemma LowWord(x: nat, high: nat, low: nat)
    requires x == 0x1_0000 * high + low && low < 0x1_0000
    ensures Byte0(x) == Byte0(low) && Byte1(x) == Byte1(low)
  {
    assert x / 0x100 == 0x100 * high + low / 0x100;
  }

  /** The 25 bytes from offset 11 are the parameter block, and on FAT32 the next 28 its extension. */
  lemma BootLayout(v: Volume)
    requires v.Valid()
    ensures BootSector(v)[11..36] == BpbBytes(v.bpb)
    ensures v.fat == 32 ==> BootSector(v)[36..64] == BigBpbBytes(v.bpb)
    ensures BootSector(v)[..3] == [0xeb, HeaderLength(v.fat) - 2, 0x90] && BootSector(v)[510..512] == [0x55, 0xaa]
  {
    var s := BootSector(v);
    var tail := BOOTCODE + Zeros(510 - HeaderLength(v.fat) - |BOOTCODE|)
                + [0x55, 0xaa] + Zeros(v.bpb.bytesPerSec - MINBPS);
    assert s == JumpBytes(v) + Parameters(v) + tail;
  }

  lemma SmallFieldsReadBack(b: Bpb, s: Bytes)
    requires |s| >= 512 && s[11..36] == BpbBytes(b)
    requires b.bytesPerSec <= MAXU16 && b.secPerClust < 0x100 && b.fats < 0x100
    requires b.rootDirEnts <= MAXU16 && b.sectors <= MAXU16 && b.media < 0x100 && b.fatSecs <= MAXU16
    ensures Reader.Read2(s, 11) == b.bytesPerSec && s[13] == b.secPerClust
    ensures Reader.Read2(s, 14) == b.resSectors % 0x1_0000
    ensures s[16] == b.fats && Reader.Read2(s, 17) == b.rootDirEnts && Reader.Read2(s, 19) == b.sectors
    ensures s[21] == b.media && Reader.Read2(s, 22) == b.fatSecs
  {
    var t := BpbBytes(b);
    assert forall k :: 0 <= k < 25 ==> s[11 + k] == s[11..36][k];
    assert s[13] == t[2] && s[16] == t[5] && s[21] == t[10];
    ReadsLe2(s, 11, b.bytesPerSec);
    ReadsCut(s, 14, b.resSectors);
    ReadsLe2(s, 17, b.rootDirEnts);
    ReadsLe2(s, 19, b.sectors);
    ReadsLe2(s, 22, b.fatSecs);
  }

  lemma DriveFieldsReadBack(b: Bpb, s: Bytes)
    requires |s| >= 512 && s[11..36] == BpbBytes(b)
    requires b.secPerTrack <= MAXU16 && b.heads <= MAXU16 && b.hiddenSecs < TWO32 && b.hugeSectors < TWO32
    ensures Reader.Read2(s, 24) == b.secPerTrack && Reader.Read2(s, 26) == b.heads
    ensures Reader.Read4(s, 28) == b.hiddenSecs && Reader.Read4(s, 32) == b.hugeSectors
  {
    assert forall k :: 0 <= k < 25 ==> s[11 + k] == s[11..36][k];
    ReadsLe2(s, 24, b.secPerTrack);
    ReadsLe2(s, 26, b.heads);
    ReadsLe4(s, 28, b.hiddenSecs);
    ReadsLe4(s, 32, b.hugeSectors);
  }

  /**
   Parsing the boot sector recovers the whole parameter block exactly when the reserved area
   fits its 16 bits; no other field is truncated and none is overwritten.
   */
  lemma BootRoundTrip(v: Volume)
    requires v.Valid()
    ensures Reader.Parse(BootSector(v)) == Stored(v.bpb)
    ensures Reader.Parse(BootSector(v)) == v.bpb <==> v.bpb.resSectors <= MAXU16
  {
    var s := BootSector(v);
    BootLayout(v);
    HeaderFields(v, s);
    StoredWhole(v.bpb);
  }

  lemma StoredWhole(b: Bpb)
    ensures Stored(b) == b <==> b.resSectors <= MAXU16
  {
  }

  lemma HeaderFields(v: Volume, s: Bytes)
    requires v.Valid() && |s| >= 512 && s[11..36] == BpbBytes(v.bpb)
    requires v.fat == 32 ==> s[36..64] == BigBpbBytes(v.bpb)
    ensures Reader.Parse(s) == Stored(v.bpb)
  {
    SmallFieldsReadBack(v.bpb, s);
    DriveFieldsReadBack(v.bpb, s);
    if v.fat == 32 {
      BigFieldsReadBack(v.bpb, s);
    }
  }

  lemma BigFieldsReadBack(b: Bpb, s: Bytes)
    requires |s| >= 512 && s[36..64] == BigBpbBytes(b)
    requires b.bigFatSecs < TWO32 && b.rootClust < TWO32 && b.fsInfo <= MAXU16 && b.backup <= MAXU16
    ensures Reader.Read4(s, 36) == b.bigFatSecs && Reader.Read4(s, 44) == b.rootClust
    ensures Reader.Read2(s, 48) == b.fsInfo && Reader.Read2(s, 50) == b.backup
  {
    var t := BigBpbBytes(b);
    assert forall k :: 0 <= k < 28 ==> s[36 + k] == s[36..64][k];
    assert t[0..4] == Le4(b.bigFatSecs) && t[8..12] == Le4(b.rootClust);
    assert t[12..14] == Le2(b.fsInfo) && t[14..16] == Le2(b.backup);
    ReadsLe4(s, 36, b.bigFatSecs);
    ReadsLe4(s, 44, b.rootClust);
    ReadsLe2(s, 48, b.fsInfo);
    ReadsLe2(s, 50, b.backup);
  }

  /** Volume id, label and type name follow the parameter block at their standard offsets; the OEM name precedes it. */
  lemma NamesReadBack(v: Volume)
    requires v.Valid()
    ensures var s, at := BootSector(v), if v.fat == 32 then 64 else 36;
            && s[3..11] == Padded(if v.oem.Some? then v.oem.value else DEFAULT_OEM, 8)
            && s[at + 2] == 0x29 && Reader.Read4(s, at + 3) == v.id
            && s[at + 7..at + 18] == LabelBytes(if v.volumeLabel.Some? then v.volumeLabel.value else NO_NAME)
            && s[at + 18..at + 26] == TypeName(v.fat)
  {
    var s, at := BootSector(v), if v.fat == 32 then 64 else 36;
    assert s[..11] == JumpBytes(v);
    assert s[3..11] == s[..11][3..];
    ExtendedAt(v, at);
    ExtendedReadsBack(v, s, at);
  }

  lemma ExtendedAt(v: Volume, at: nat)
    requires v.Valid() && at == if v.fat == 32 then 64 else 36
    ensures BootSector(v)[at..at + 26] == ExtendedBytes(v)
  {
  }

  lemma ExtendedReadsBack(v: Volume, s: Bytes, at: nat)
    requires at + 26 <= |s| && s[at..at + 26] == ExtendedBytes(v)
    ensures s[at + 2] == 0x29 && Reader.Read4(s, at + 3) == v.id
    ensures s[at + 7..at + 18] == LabelBytes(if v.volumeLabel.Some? then v.volumeLabel.value else NO_NAME)
    ensures s[at + 18..at + 26] == TypeName(v.fat)
  {
    var x := ExtendedBytes(v);
    Within(s, at, at + 26, 2, 7);
    Within(s, at, at + 26, 7, 18);
    Within(s, at, at + 26, 18, 26);
    assert x[2..7] == IdBytes(v);
    assert x[7..18] == LabelBytes(if v.volumeLabel.Some? then v.volumeLabel.value else NO_NAME);
    assert x[18..26] == TypeName(v.fat);
    var t := s[at + 2..at + 7];
    assert s[at + 2] == t[0] && s[at + 3] == t[1] && s[at + 4] == t[2] && s[at + 5] == t[3] && s[at + 6] == t[4];
    ReadsLe4(s, at + 3, v.id);
  }

  /** The label entry of the root directory: name, volume attribute (0x08, with the archive bit), time and date. */
  lemma LabelReadsBack(v: Volume)
    requires v.Valid() && v.volumeLabel.Some?
    ensures var s := LabelSector(v);
            && s[..11] == LabelBytes(v.volumeLabel.value) && s[11] == 0x28
            && Reader.Read2(s, 22) == v.time && Reader.Read2(s, 24) == v.date
            && s[26..] == Zeros(v.bpb.bytesPerSec - 26)
  {
    var s := LabelSector(v);
    ReadsLe2(s, 22, v.time);
    ReadsLe2(s, 24, v.date);
  }
}
