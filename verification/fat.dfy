/** The parameter block, the limits of the three FAT types and the formatter's refusals. */
module Fat {
  import opened Machine

  const MAXU16 := 0xffff
  const BPN := 4
  const NPB := 2
  const MINBPS := 512
  const MAXBPS := 4096
  const MAXSPC := 128
  const MAXNFT := 16
  const DEFBLK := 4096
  const DEFBLK16 := 2048
  const DEFRDE := 512
  const RESFTE := 2
  /** sizeof(struct de) */
  const DIRENT := 32

  function MinCls(fat: nat): nat {
    if fat == 12 then 1 else if fat == 16 then 0xff5 else 0xfff5
  }

  function MaxCls(fat: nat): nat {
    if fat == 12 then 0xff4 else if fat == 16 then 0xfff4 else 0xffffff4
  }

  predicate IsFat(fat: nat) {
    fat == 12 || fat == 16 || fat == 32
  }

  predicate IsBps(bps: nat) {
    bps == 512 || bps == 1024 || bps == 2048 || bps == 4096
  }

  predicate IsSpc(spc: nat) {
    spc == 1 || spc == 2 || spc == 4 || spc == 8 || spc == 16 || spc == 32 || spc == 64 || spc == 128
  }

  /** struct bpb. While the layout is being solved a zero field means "not given". */
  datatype Bpb = Bpb(
    bytesPerSec: nat,
    secPerClust: nat,
    resSectors: nat,
    fats: nat,
    rootDirEnts: nat,
    sectors: nat,
    media: nat,
    fatSecs: nat,
    secPerTrack: nat,
    heads: nat,
    hiddenSecs: nat,
    hugeSectors: nat,
    bigFatSecs: nat,
    rootClust: nat,
    fsInfo: nat,
    backup: nat)

  /**
   The block as its fields on the disk hold it. Only the reserved area, which alignment can
   make larger than 16 bits count, is cut by this.
   */
  function Stored(b: Bpb): Bpb {
    b.(resSectors := b.resSectors % 0x1_0000)
  }

  const ZERO_BPB := Bpb(0, 0, 0, 0, 0, 0, 0, 0, 0, 0, 0, 0, 0, 0, 0, 0)

  datatype Error =
    | BothBlockAndCluster
    | BadOem
    | UnknownFloppy
    | BadGeometry
    | BadSectorSize
    | BadLabel
    | IllegalFatOption
    | BadFatType
    | BadBlockSize
    | BadClusterSize
    | TooManyFats
    | BadMedia
    | BadBootstrap
    | NoRoomForInfo
    | NoRoomForBackup
    | BackupOverInfo
    | TooFewReserved
    | FatTooLarge
    | MetaDataExceeds
    | TooFewClusters(clusters: nat)
    | WriteFailed

  /** What the option checks leave behind; every field the layout reads is in range. */
  predicate ValidBpb(b: Bpb) {
    && IsBps(b.bytesPerSec)
    && (b.secPerClust == 0 || IsSpc(b.secPerClust))
    && b.resSectors <= MAXU16
    && 1 <= b.fats <= MAXNFT
    && b.rootDirEnts <= MAXU16
    && (b.media == 0 || 0xf0 <= b.media <= 0xff)
    && b.secPerTrack <= MAXU16
    && b.heads <= MAXU16
    && b.hiddenSecs < TWO32
    && b.hugeSectors < TWO32
    && b.bigFatSecs < TWO32
    && b.fsInfo <= MAXU16
    && b.backup <= MAXU16
    && b.sectors == b.fatSecs == b.rootClust == 0
  }
}
