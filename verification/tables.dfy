/** The file allocation tables as a reader finds them in the image. */
module Tables {
  import opened Machine
  import opened Fat
  import opened Sector
  import Reader

  /** Sector lsn of the image is the sector that was composed for it. */
  lemma {:induction false} ImageSector(v: Volume, n: nat, lsn: nat)
    requires v.Valid() && lsn < n
    ensures (lsn + 1) * v.bpb.bytesPerSec <= |Image(v, n)|
    ensures Reader.SectorAt(Image(v, n), v.bpb.bytesPerSec, lsn) == Contents(v, lsn)
  {
    var bps := v.bpb.bytesPerSec;
    MulMono(lsn + 1, n, bps);
    if lsn < n - 1 {
      ImageSector(v, n - 1, lsn);
      SectorInFront(Image(v, n - 1), Contents(v, n - 1), bps, lsn);
    } else {
      SectorBehind(Image(v, lsn), Contents(v, lsn), bps, lsn);
    }
  }

  lemma SectorInFront(a: Bytes, b: Bytes, bps: nat, k: nat)
    requires (k + 1) * bps <= |a|
    ensures Reader.SectorAt(a + b, bps, k) == Reader.SectorAt(a, bps, k)
  {
  }

  lemma SectorBehind(a: Bytes, b: Bytes, bps: nat, k: nat)
    requires |a| == k * bps && |b| == bps
    ensures (k + 1) * bps == |a + b| && Reader.SectorAt(a + b, bps, k) == b
  {
  }

  /** Both sequences have a k-th sector, and it is the same. */
  predicate AgreeAt(a: Bytes, b: Bytes, bps: nat, k: nat) {
    && (k + 1) * bps <= |a| && (k + 1) * bps <= |b|
    && Reader.SectorAt(a, bps, k) == Reader.SectorAt(b, bps, k)
  }

  /** Two byte sequences that agree sector by sector are the same. */
  lemma SameSectors(a: Bytes, b: Bytes, bps: nat, m: nat)
    requires bps > 0 && |a| == |b| == m * bps
    requires forall k :: 0 <= k < m ==> AgreeAt(a, b, bps, k)
    ensures a == b
  {
    forall i | 0 <= i < |a| ensures a[i] == b[i] {
      var k := i / bps;
      DivBounds(i, bps);
      DivBelow(i, bps, m);
      assert AgreeAt(a, b, bps, k);
      assert Reader.SectorAt(a, bps, k)[i - k * bps] == a[i];
      assert Reader.SectorAt(b, bps, k)[i - k * bps] == b[i];
    }
  }

  /** A fresh FAT: its reserved entries, then zeros. */
  function FreshTable(v: Volume): (s: Bytes)
    requires v.Valid()
    ensures |s| == Reader.FatSize(v.bpb) * v.bpb.bytesPerSec
  {
    MulMono(1, Reader.FatSize(v.bpb), v.bpb.bytesPerSec);
    FatStart(v) + Zeros((Reader.FatSize(v.bpb) - 1) * v.bpb.bytesPerSec)
  }

  /** The sector that holds the second copy of FSInfo, when there is one. */
  predicate HasInfoCopy(v: Volume) {
    v.fat == 32 && v.bpb.fsInfo != MAXU16 && v.bpb.backup != MAXU16
  }

  /** The FSInfo copy falls among the FATs. */
  predicate InfoHitsFats(v: Volume) {
    HasInfoCopy(v) && v.bpb.resSectors <= v.bpb.backup + v.bpb.fsInfo < v.Dir()
  }

  /** What is written to a sector of the FAT area that the FSInfo copy does not hit. */
  lemma FatAreaSector(v: Volume, lsn: nat)
    requires v.Valid() && v.bpb.resSectors <= lsn < v.Dir()
    requires !(HasInfoCopy(v) && lsn == v.bpb.backup + v.bpb.fsInfo)
    ensures Contents(v, lsn) ==
            if (lsn - v.bpb.resSectors) % Reader.FatSize(v.bpb) == 0 then FatStart(v) else Zeros(v.bpb.bytesPerSec)
  {
  }

  lemma FreshSector(v: Volume, k: nat)
    requires v.Valid() && k < Reader.FatSize(v.bpb)
    ensures (k + 1) * v.bpb.bytesPerSec <= |FreshTable(v)|
    ensures Reader.SectorAt(FreshTable(v), v.bpb.bytesPerSec, k) ==
            if k == 0 then FatStart(v) else Zeros(v.bpb.bytesPerSec)
  {
    var bps := v.bpb.bytesPerSec;
    MulMono(k + 1, Reader.FatSize(v.bpb), bps);
    if k > 0 {
      MulMono(1, k, bps);
    }
  }

  /** An image that holds this volume, sector by sector. */
  predicate Shows(img: Bytes, v: Volume)
    requires v.Valid()
  {
    && |img| == v.Sectors() * v.bpb.bytesPerSec
    && forall lsn :: 0 <= lsn < v.Sectors() ==> ShowsSector(img, v, lsn)
  }

  predicate ShowsSector(img: Bytes, v: Volume, lsn: nat)
    requires v.Valid()
  {
    && (lsn + 1) * v.bpb.bytesPerSec <= |img|
    && Reader.SectorAt(img, v.bpb.bytesPerSec, lsn) == Contents(v, lsn)
  }

  lemma ImageShows(v: Volume)
    requires v.Valid()
    ensures Shows(Image(v, v.Sectors()), v)
  {
    forall lsn | 0 <= lsn < v.Sectors() ensures ShowsSector(Image(v, v.Sectors()), v, lsn) {
      ImageSector(v, v.Sectors(), lsn);
    }
  }

  lemma ShownFats(img: Bytes, v: Volume)
    requires v.Valid() && Shows(img, v)
    ensures Reader.HoldsFats(img, v.bpb)
  {
    MulMono(v.Dir(), v.Sectors(), v.bpb.bytesPerSec);
  }

  /** Sector k of the i-th FAT is a sector of the image. */
  lemma CopySector(img: Bytes, b: Bpb, i: nat, k: nat)
    requires i < b.fats && k < Reader.FatSize(b) && Reader.HoldsFats(img, b)
    ensures (k + 1) * b.bytesPerSec <= |Reader.FatCopy(img, b, i)|
    ensures (Reader.FatSector(b, i) + k + 1) * b.bytesPerSec <= |img|
    ensures Reader.SectorAt(Reader.FatCopy(img, b, i), b.bytesPerSec, k) ==
            Reader.SectorAt(img, b.bytesPerSec, Reader.FatSector(b, i) + k)
  {
    Reader.FatCopyInside(img, b, i);
    SectorWithin(img, Reader.FatSector(b, i), Reader.FatSize(b), b.bytesPerSec, k);
  }

  /** Sector k of `count` sectors from the first-th on. */
  lemma SectorWithin(img: Bytes, first: nat, count: nat, bps: nat, k: nat)
    requires k < count && first * bps + count * bps <= |img|
    ensures (k + 1) * bps <= count * bps && (first + k + 1) * bps <= |img|
    ensures var part := img[first * bps..first * bps + count * bps];
            Reader.SectorAt(part, bps, k) == Reader.SectorAt(img, bps, first + k)
  {
    MulMono(k + 1, count, bps);
    Products(first, k, bps);
    Within(img, first * bps, first * bps + count * bps, k * bps, k * bps + bps);
  }

  lemma Products(a: nat, b: nat, c: nat)
    ensures (b + 1) * c == b * c + c
    ensures (a + b) * c == a * c + b * c && (a + b + 1) * c == a * c + b * c + c
  {
  }

  lemma RowStart(i: nat, k: nat, spf: nat)
    requires k < spf
    ensures (i * spf + k) % spf == k && (i * spf + k) / spf == i
  {
    DivUnique(i * spf + k, spf, i);
  }

  /** The first sectors of the FATs are those a multiple of the FAT size behind the reserved area. */
  lemma StartsRow(b: Bpb, i: nat, k: nat, lsn: nat)
    requires k < Reader.FatSize(b) && lsn == Reader.FatSector(b, i) + k
    ensures lsn >= b.resSectors && ((lsn - b.resSectors) % Reader.FatSize(b) == 0 <==> k == 0)
  {
    MulMono(0, i, Reader.FatSize(b));
    assert lsn - b.resSectors == i * Reader.FatSize(b) + k;
    RowStart(i, k, Reader.FatSize(b));
  }

  /** Sector k of a FAT as it was composed, unless the FSInfo copy is there. */
  lemma ComposedRow(v: Volume, i: nat, k: nat, lsn: nat)
    requires v.Valid() && i < v.bpb.fats && k < Reader.FatSize(v.bpb) && lsn == Reader.FatSector(v.bpb, i) + k
    requires lsn < v.Dir() && !(HasInfoCopy(v) && lsn == v.bpb.backup + v.bpb.fsInfo)
    ensures Contents(v, lsn) == if k == 0 then FatStart(v) else Zeros(v.bpb.bytesPerSec)
  {
    StartsRow(v.bpb, i, k, lsn);
    FatAreaSector(v, lsn);
  }

  lemma RowInside(v: Volume, i: nat, k: nat)
    requires i < v.bpb.fats && k < Reader.FatSize(v.bpb)
    ensures Reader.FatSector(v.bpb, i) + k < v.Dir()
  {
    MulMono(i + 1, v.bpb.fats, Reader.FatSize(v.bpb));
  }

  lemma SectorShown(img: Bytes, v: Volume, lsn: nat)
    requires v.Valid() && Shows(img, v) && lsn < v.Dir()
    ensures ShowsSector(img, v, lsn)
  {
  }

  lemma RowContents(img: Bytes, v: Volume, i: nat, k: nat, lsn: nat)
    requires v.Valid() && Shows(img, v) && i < v.bpb.fats && k < Reader.FatSize(v.bpb)
    requires lsn == Reader.FatSector(v.bpb, i) + k
    requires lsn < v.Dir() && !(HasInfoCopy(v) && lsn == v.bpb.backup + v.bpb.fsInfo)
    ensures (lsn + 1) * v.bpb.bytesPerSec <= |img|
    ensures Reader.SectorAt(img, v.bpb.bytesPerSec, lsn) == if k == 0 then FatStart(v) else Zeros(v.bpb.bytesPerSec)
  {
    SectorShown(img, v, lsn);
    ComposedRow(v, i, k, lsn);
  }

  /** Sector k of the i-th FAT, unless the FSInfo copy is there. */
  lemma FreshRow(img: Bytes, v: Volume, i: nat, k: nat)
    requires v.Valid() && Shows(img, v) && Reader.HoldsFats(img, v.bpb)
    requires i < v.bpb.fats && k < Reader.FatSize(v.bpb)
    requires !(HasInfoCopy(v) && Reader.FatSector(v.bpb, i) + k == v.bpb.backup + v.bpb.fsInfo)
    ensures AgreeAt(Reader.FatCopy(img, v.bpb, i), FreshTable(v), v.bpb.bytesPerSec, k)
  {
    RowInside(v, i, k);
    RowContents(img, v, i, k, Reader.FatSector(v.bpb, i) + k);
    CopySector(img, v.bpb, i, k);
    FreshSector(v, k);
  }

  lemma RowIsUnhit(img: Bytes, v: Volume, i: nat, k: nat)
    requires v.Valid() && Reader.HoldsFats(img, v.bpb) && !InfoHitsFats(v)
    requires i < v.bpb.fats && k < Reader.FatSize(v.bpb)
    ensures !(HasInfoCopy(v) && Reader.FatSector(v.bpb, i) + k == v.bpb.backup + v.bpb.fsInfo)
  {
    Reader.FatCopyInside(img, v.bpb, i);
    MulMono(0, i, Reader.FatSize(v.bpb));
  }

  /** The FATs are fresh when the FSInfo copy stays out of them. */
  lemma UnhitFatIsFresh(img: Bytes, v: Volume, i: nat)
    requires v.Valid() && Shows(img, v) && Reader.HoldsFats(img, v.bpb)
    requires i < v.bpb.fats && !InfoHitsFats(v)
    ensures Reader.FatCopy(img, v.bpb, i) == FreshTable(v)
  {
    var copy, fresh' := Reader.FatCopy(img, v.bpb, i), FreshTable(v);
    var bps, spf := v.bpb.bytesPerSec, Reader.FatSize(v.bpb);
    forall k | 0 <= k < spf ensures AgreeAt(copy, fresh', bps, k) {
      RowIsUnhit(img, v, i, k);
      FreshRow(img, v, i, k);
    }
    SameSectors(copy, fresh', bps, spf);
  }

  /** The FAT that the FSInfo copy hits is not. */
  lemma HitFatIsNotFresh(img: Bytes, v: Volume, i: nat, k: nat)
    requires v.Valid() && Shows(img, v) && HasInfoCopy(v) && i < v.bpb.fats && k < Reader.FatSize(v.bpb)
    requires Reader.FatSector(v.bpb, i) + k == v.bpb.backup + v.bpb.fsInfo
    ensures Reader.HoldsFats(img, v.bpb)
    ensures Reader.FatCopy(img, v.bpb, i) != FreshTable(v)
  {
    ShownFats(img, v);
    Reader.FatCopyInside(img, v.bpb, i);
    CopySector(img, v.bpb, i, k);
    assert ShowsSector(img, v, Reader.FatSector(v.bpb, i) + k);
    FreshSector(v, k);
    InfoIsNotFat(v);
  }

  /** Every sector of the FAT area belongs to one FAT. */
  lemma FatOfSector(b: Bpb, lsn: nat) returns (i: nat, k: nat)
    requires Reader.FatSize(b) > 0 && b.resSectors <= lsn < b.resSectors + b.fats * Reader.FatSize(b)
    ensures i < b.fats && k < Reader.FatSize(b) && Reader.FatSector(b, i) + k == lsn
  {
    var d, spf := lsn - b.resSectors, Reader.FatSize(b);
    i, k := d / spf, d % spf;
    DivBelow(d, spf, b.fats);
    assert d == i * spf + k;
  }

  lemma InfoIsNotFat(v: Volume)
    requires v.Valid()
    ensures InfoSector(v.bpb.bytesPerSec) != FatStart(v)
    ensures InfoSector(v.bpb.bytesPerSec) != Zeros(v.bpb.bytesPerSec)
  {
    assert InfoSector(v.bpb.bytesPerSec)[484] == 0x72;
    assert FatStart(v)[484] == 0;
  }

  /**
   All FATs are fresh, and therefore byte for byte the same, exactly when the second copy of
   FSInfo stays out of them.
   */
  lemma FatsAreFreshExactly(img: Bytes, v: Volume)
    requires v.Valid() && Shows(img, v)
    ensures Reader.HoldsFats(img, v.bpb)
    ensures (forall i :: 0 <= i < v.bpb.fats ==> Reader.FatCopy(img, v.bpb, i) == FreshTable(v)) <==> !InfoHitsFats(v)
  {
    ShownFats(img, v);
    if InfoHitsFats(v) {
      var i, k := FatOfSector(v.bpb, v.bpb.backup + v.bpb.fsInfo);
      HitFatIsNotFresh(img, v, i, k);
    } else {
      forall i | 0 <= i < v.bpb.fats ensures Reader.FatCopy(img, v.bpb, i) == FreshTable(v) {
        UnhitFatIsFresh(img, v, i);
      }
    }
  }

  lemma FreshBytes(v: Volume, k: nat)
    requires v.Valid() && k < |FreshTable(v)|
    ensures FreshTable(v)[k] ==
            if k == 0 then v.bpb.media
            else if k < |FatHead(v.fat, v.bpb.media)| then (if v.fat == 32 && k % 4 == 3 then 0x0f else 0xff)
            else 0
  {
  }

  /** The entries of a fresh table: media, all ones, the end of the root's chain on FAT32, and free clusters. */
  function FreshEntry(v: Volume, n: nat): nat {
    var ones := if v.fat == 12 then 0xfff else if v.fat == 16 then 0xffff else 0xfff_ffff;
    if n == 0 then ones - 0xff + v.bpb.media
    else if n == 1 || (n == 2 && v.fat == 32) then ones
    else 0
  }

  lemma FreshEntry12(v: Volume, n: nat)
    requires v.Valid() && v.fat == 12 && (n + 1) * 3 <= |FreshTable(v)| * NPB
    ensures Reader.Entry(12, FreshTable(v), n) == FreshEntry(v, n)
  {
    FreshBytes(v, n + n / 2);
    FreshBytes(v, n + n / 2 + 1);
  }

  lemma FreshEntry16(v: Volume, n: nat)
    requires v.Valid() && v.fat == 16 && (n + 1) * 4 <= |FreshTable(v)| * NPB
    ensures Reader.Entry(16, FreshTable(v), n) == FreshEntry(v, n)
  {
    FreshBytes(v, n * 2);
    FreshBytes(v, n * 2 + 1);
  }

  lemma FreshEntry32(v: Volume, n: nat)
    requires v.Valid() && v.fat == 32 && (n + 1) * 8 <= |FreshTable(v)| * NPB
    ensures Reader.Entry(32, FreshTable(v), n) == FreshEntry(v, n)
  {
    FreshBytes(v, n * 4);
    FreshBytes(v, n * 4 + 1);
    FreshBytes(v, n * 4 + 2);
    FreshBytes(v, n * 4 + 3);
  }

  /** Decoding a fresh table gives the fresh entry of every cluster that the table describes. */
  lemma FreshEntries(v: Volume, n: nat)
    requires v.Valid() && (n + 1) * (v.fat / BPN) <= |FreshTable(v)| * NPB
    ensures Reader.Entry(v.fat, FreshTable(v), n) == FreshEntry(v, n)
  {
    if v.fat == 12 {
      FreshEntry12(v, n);
    } else if v.fat == 16 {
      FreshEntry16(v, n);
    } else {
      FreshEntry32(v, n);
    }
  }
}
