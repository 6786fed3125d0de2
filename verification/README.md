# FAT formatting and file copying, verified

Two programs of the repository are modelled and proved here.

**`mkfs_msdos`** formats a FAT volume. From options and disk geometry it picks the FAT type, the
reserved area, the cluster size and the FAT size, all of which depend on each other, and then
writes boot sector, FSInfo, FATs and root directory one sector at a time through a chunked buffer.
The measure of success lies outside the program: a driver that sees only the written bytes and
follows the Microsoft FAT Specification (August 2005, sections 3.1 to 3.5, 4.1, 4.2 and 6.1) must find
the same volume.

**`copyfile`** copies a file by name or by descriptor, with short reads and writes, an open-and-retry
loop for the destination, and a state object that keeps descriptors between calls.

## How it is put together

| file | contents |
|---|---|
| `machine.dfy`, `wrappers.dfy`, `fat.dfy` | C integer types, `howmany`, `powerof2`; results; the parameter block and the limits of the FAT types |
| `options.dfy`, `requests.dfy`, `formats.dfy`, `selection.dfy` | option checks; which requests are legal and where the other values come from; floppy formats; automatic FAT type and reserved sectors |
| `layout.dfy`, `defaults.dfy`, `solver.dfy`, `tightness.dfy` | the layout over unbounded integers; its defaults; the source's loops over 32- and 64-bit words; the arithmetic between estimate and FAT size |
| `agreement.dfy`, `sizing.dfy`, `requested.dfy`, `economy.dfy`, `outcomes.dfy`, `limits.dfy` | what a reader derives from a layout, when a layout is accepted, both in terms of what was asked for, how little it gives away, what it guarantees, and layouts for which it does not |
| `reader.dfy` | the reader, written from the specification alone |
| `sector.dfy`, `writer.dfy` | what each sector holds; the in-place composition and the chunked output |
| `roundtrip.dfy`, `labels.dfy`, `tables.dfy`, `mkfs.dfy`, `readback.dfy`, `answers.dfy` | reading back headers, names, FATs and directory; the whole command; the end-to-end results, and that the written header answers what was asked for |
| `reformat.dfy`, `inputs.dfy` | the command run again on its own result; the options that lead to each counterexample |
| `kernel.dfy`, `copyloop.dfy`, `copyfile.dfy`, `copylimits.dfy` | system calls that may fail or stop short; the copy loops; the state object and its calls; how its reuse goes wrong |

`Solver.Solve` does its arithmetic in `u32` and `u64`, whose every operation is checked not to wrap,
in both passes and for given as well as computed FAT sizes; the one cast of the source that can
truncate (the FAT capacity of line 582) is written `Wrap32`. `Layout.Solution` is what it computes,
and the results about layouts are lemmas about `Solution`. What the header on the disk holds of a
layout is `Stored(Seal(plan))`, which `RoundTrip.BootRoundTrip` ties to the bytes.

The kernel of `copyfile` counts, in ghost fields, the calls that failed for reasons of their own
(`faults`), the reads that failed (`readErrors`), the names there was no memory to keep
(`lostNames`) and those that could not be removed (`keptNames`). Results are guarded by these
counts, and copies are also shown to succeed when nothing failed.

## What the proofs found

The code keeps its promises with alignment off, a computed FAT size and default sectors
(`ReadBack.VolumeReadsBack`, `ReadBack.DefaultVolumeReadsBack`). Elsewhere it does not. For each
failure the exact condition is proved, and where it depends on options or on how a state is used,
also that given options or calls lead to it.

* With a given FAT size, or after a second alignment pass, the volume can read back as another FAT
  type (`TypeAgreement`, `RequestedAgreement`, `ComputedTypeExactly`; `GivenFatInput`,
  `AlignedCutInput`).
* Alignment can push the reserved area past the 16 bits its header field has. The header then says
  something else, down to no reserved sectors at all (`HeaderOverflowsExactly`, `BootRoundTrip`;
  `ReservedOverflowInput`, `ReservedOverflowMisleads`).
* When the FAT is the limit, the reader counts clusters that have no FAT entry; a disk of 375 sectors
  with every default is enough (`CountAgreement`, `EntryAgreement`; `SmallDiskInput`,
  `LastClusterHasNoEntry`).
* An offset behind the end of the device makes the size wrap to nearly 2^32 sectors, and such a volume
  is accepted (`DeviceIsHonoured`; `OffsetBehindInput`).
* Automatic selection can pick FAT32 and then refuse it: a 2 GiB disk with every default is refused
  (`AcceptedExactly`; `TwoGibInput`).
* The second FSInfo sector can overwrite a FAT, the root directory or the label
  (`FatsAreFreshExactly`, `RootReadsBack`, `LabelReadsBackExactly`). Three reserved sectors lose the
  FAT (`ThreeReservedInput`, `ThreeReservedSectorsLoseTheFat`), info sector 1500 and backup sector
  1700 the root directory and the label (`RootHitInput`, `RootHitLosesTheRoot`).
* Copying makes the destination the source, whatever the two hold, only from start to start
  (`FaithfulExactly`). A state keeps the source open at its end, so a second copy of the same source
  with one state returns 0 and leaves a file of zeros (`SecondCopyIsZeros`).
* A read error always makes `copyfile` return 0, with only a first part of the source copied
  (`CopyData`, and `Counts` in the contracts of its callers). A directory copied with COPYFILE_DATA
  is such a case (`CopyDirectory`).
* A descriptor outlives its state exactly when it has no name at the end (`Lifetime`); one name lost
  for want of memory is enough (`LostNameLeaks`). A descriptor lent to `fcopyfile` is closed with
  the state once that has names (`AdoptedAreClosed`).
* A descriptor whose open was tried and failed stays failed, so the state never copies again
  (`CopyNamed`): one copy that COPYFILE_EXCL refuses is enough, without any fault (`RefusedOnce`).
* The counter meant to stop `copyfile` after five empty writes starts again each time and never does
  (`WriteBlock`).

The comment at lines 512-520 says alignment takes at most two passes and cannot be thrown off by a
smaller cluster size; that is proved (`AlwaysAligned`).

## Model

| member | source | states |
|---|---|---|
| Solver.Solve | packages/aquabsd.alps/libmkfs_msdos/src/mkfs_msdos.c:505-599 | the do/while, the doubling loop and the clamps in 32-bit arithmetic give the unbounded-integer layout for every valid job; no operation wraps |
| Solver.DefaultCluster | packages/aquabsd.alps/libmkfs_msdos/src/mkfs_msdos.c:535-547 | the doubling loop finds the default cluster size: the first one with which the volume does not have more clusters than its type allows |
| Defaults.DefaultExactly | packages/aquabsd.alps/libmkfs_msdos/src/mkfs_msdos.c:535-547 | the default cluster size is the one size from the first on that does not make too many clusters while half of it does, or the largest, and no other |
| Defaults.FirstClusterBytes | packages/aquabsd.alps/libmkfs_msdos/src/mkfs_msdos.c:536-537 | the doubling starts from 4 KiB, on FAT16 2 KiB, or one sector |
| Defaults.ReserveExactly | packages/aquabsd.alps/libmkfs_msdos/src/mkfs_msdos.c:523-525 | a reserved area left open is the least that serves and, on FAT32, covers 16 KiB and has four sectors |
| Solver.EstimateClusters | packages/aquabsd.alps/libmkfs_msdos/src/mkfs_msdos.c:559-560 | the 64-bit quotient is the largest number of clusters whose sectors and FAT nibbles fit the room |
| Layout.Estimate | packages/aquabsd.alps/libmkfs_msdos/src/mkfs_msdos.c:559-560 | the estimate is the only number between its two bounds |
| Layout.ComputedPass | packages/aquabsd.alps/libmkfs_msdos/src/mkfs_msdos.c:552-568 | after the FAT grew behind the size check, the estimated clusters still fit in front of the end of the volume, and at most one more and a FAT row do not |
| Layout.SecondPassFits | packages/aquabsd.alps/libmkfs_msdos/src/mkfs_msdos.c:553-568 | although a second pass counts the FATs nearly twice, the subtraction of line 581 does not wrap |
| Sizing.EstimateIsTight | packages/aquabsd.alps/libmkfs_msdos/src/mkfs_msdos.c:552-585 | the clusters that fit are at least the estimate and exceed it by at most ceil(FATs/cluster size) |
| Sizing.ClampDropsFew | packages/aquabsd.alps/libmkfs_msdos/src/mkfs_msdos.c:581-585 | the clamp to the FAT's capacity drops at most that many clusters |
| Sizing.CapacityGalois | packages/aquabsd.alps/libmkfs_msdos/src/mkfs_msdos.c:562-583 | a FAT describes a cluster count exactly when it is as long as computed for it |
| Sizing.AcceptedExactly | packages/aquabsd.alps/libmkfs_msdos/src/mkfs_msdos.c:521-593 | with the FAT size computed and alignment off, a volume is accepted if and only if it has room for the least clusters of its type and a FAT describing them; `Requested.AcceptableExactly` has every other case |
| Sizing.ComputedTypeAgreement | packages/aquabsd.alps/libmkfs_msdos/src/mkfs_msdos.c:552-615 | alignment off and FAT size computed: the reader's cluster count suits the FAT type, and the reader's FAT type is the one formatted, whichever clamp fires |
| Agreement.TypeAgreement | packages/aquabsd.alps/libmkfs_msdos/src/mkfs_msdos.c:552-615 | for every accepted layout, aligned or not, the exact condition under which the block on the disk has a cluster count that suits the FAT type |
| Agreement.CountAgreement | packages/aquabsd.alps/libmkfs_msdos/src/mkfs_msdos.c:581-599 | for every accepted layout, the exact condition under which the reader counts the clusters laid out |
| Agreement.EntryAgreement | packages/aquabsd.alps/libmkfs_msdos/src/mkfs_msdos.c:581-599 | for every accepted layout, the exact condition under which each cluster the reader counts has a FAT entry |
| Agreement.PlainAgreement | packages/aquabsd.alps/libmkfs_msdos/src/mkfs_msdos.c:521-615 | with alignment off, when type, count and FAT entries agree, in terms of what was asked for alone |
| Requested.LastPass | packages/aquabsd.alps/libmkfs_msdos/src/mkfs_msdos.c:512-579 | the loop in closed form: reserved area with padding, cluster size, FAT size and start of the clusters in terms of what was asked for, aligned or not |
| Requested.RequestedAgreement | packages/aquabsd.alps/libmkfs_msdos/src/mkfs_msdos.c:512-615 | for every accepted layout, when type, count and FAT entries agree, in terms of what was asked for alone |
| Requested.StartsAgreeExactly | packages/aquabsd.alps/libmkfs_msdos/src/mkfs_msdos.c:552-578 | the header has the clusters begin where the layout does unless the reserved area overflows or a second pass counts a computed FAT twice |
| Requested.HeaderOverflowsExactly | packages/aquabsd.alps/libmkfs_msdos/src/mkfs_msdos.c:512-578 | the header holds another block than the layout's if and only if what was reserved and the padding come to more than 16 bits |
| Requested.ComputedTypeExactly | packages/aquabsd.alps/libmkfs_msdos/src/mkfs_msdos.c:512-615 | FAT size computed, aligned or not: the reader finds an allowed count, and so the type formatted, if and only if nothing was padded or it sees no more than the largest count |
| Requested.AcceptableExactly | packages/aquabsd.alps/libmkfs_msdos/src/mkfs_msdos.c:512-593 | every valid job, given or computed FAT, aligned or not, is accepted if and only if the least clusters fit behind the start and in the FAT, and the FAT in its field |
| Requested.RefusedExactly | packages/aquabsd.alps/libmkfs_msdos/src/mkfs_msdos.c:512-593 | which refusal every valid job meets: too few reserved sectors, too long a FAT, metadata that does not fit, too few clusters, in this order |
| Agreement.SealedFields | packages/aquabsd.alps/libmkfs_msdos/src/mkfs_msdos.c:604-615 | folding into the 16-bit fields loses nothing: the reader's sizes are the layout's |
| Agreement.SealedHeader | packages/aquabsd.alps/libmkfs_msdos/src/mkfs_msdos.c:604-615 | every field of the header: what the layout settled is kept, total and FAT size stand in the one field large enough, the media byte left open is 0xf0 exactly without hidden sectors and 0xf8 exactly with them |
| Economy.ClustersAreMost | packages/aquabsd.alps/libmkfs_msdos/src/mkfs_msdos.c:581-599 | a layout has as many clusters as type, FAT and sectors allow |
| Economy.CutExactly | packages/aquabsd.alps/libmkfs_msdos/src/mkfs_msdos.c:594-599 | the total is cut exactly when sectors and FAT would do for more clusters than the type allows, to the last sector that does not make one more |
| Economy.FatIsExact | packages/aquabsd.alps/libmkfs_msdos/src/mkfs_msdos.c:552-585 | a computed FAT is exactly as long as the clusters of the volume need, or with padding at least that long |
| Economy.RequestsAreKept | packages/aquabsd.alps/libmkfs_msdos/src/mkfs_msdos.c:521-599 | every field asked for is kept, only the total may shrink, and a root directory left open gets 512 entries |
| Sizing.CapacityExactly | packages/aquabsd.alps/libmkfs_msdos/src/mkfs_msdos.c:582-583 | a FAT describes so many clusters exactly when it holds their entries and the two reserved ones |
| Outcomes.EntriesFit | packages/aquabsd.alps/libmkfs_msdos/src/mkfs_msdos.c:581-599 | every laid-out cluster has its whole entry inside each FAT |
| Outcomes.SectorsFit | packages/aquabsd.alps/libmkfs_msdos/src/mkfs_msdos.c:581-599 | every laid-out cluster has all its sectors inside a total that never grew, and the reader looks for it there if and only if the reserved area fits 16 bits |
| Outcomes.AlwaysAligned | packages/aquabsd.alps/libmkfs_msdos/src/mkfs_msdos.c:512-579 | with alignment on, every normal exit is aligned after at most two passes; the failure warning is unreachable |
| Defaults.DoubledAntitone | packages/aquabsd.alps/libmkfs_msdos/src/mkfs_msdos.c:535-547 | a larger reserved area never gives a larger default cluster |
| Outcomes.LayoutIsStable | packages/aquabsd.alps/libmkfs_msdos/src/mkfs_msdos.c:521-599 | solving again with every chosen value and the final total gives the same layout |
| Reformat.ReformatIsStable | packages/aquabsd.alps/libmkfs_msdos/src/mkfs_msdos.c:456-599 | the same from the checked parameters on, with FAT type, info and backup sectors asked for explicitly |
| Reformat.CommandIsStable | packages/aquabsd.alps/libmkfs_msdos/src/mkfs_msdos.c:265-599 | the command run again with every choice stated as an option, on any device, poses a problem with the same solution |
| Outcomes.Fat32TotalIsLarge | packages/aquabsd.alps/libmkfs_msdos/src/mkfs_msdos.c:582-611 | on every accepted FAT32 layout the 16-bit total is zero |
| Selection.SelectionIsSafe | packages/aquabsd.alps/libmkfs_msdos/src/mkfs_msdos.c:456-479 | automatic FAT16, and automatic FAT32 without a given cluster size, are never refused as too small, for every sector size and FAT count |
| Mkfs.AutomaticIsAccepted | packages/aquabsd.alps/libmkfs_msdos/src/mkfs_msdos.c:456-593 | the same for checked parameters: only too few reserved sectors can make the layout fail |
| Selection.Fat12PickedExactly | packages/aquabsd.alps/libmkfs_msdos/src/mkfs_msdos.c:456-467 | FAT12 is picked exactly for volumes too small for the least FAT16 of the given cluster size, or for one 4 KiB cluster more than FAT12 may have |
| Selection.Fat32PickedExactly | packages/aquabsd.alps/libmkfs_msdos/src/mkfs_msdos.c:468-479 | FAT32 is picked exactly if no root directory size is given and one cluster more than FAT16 may have fits, of the given size or of 8 KiB |
| Selection.ReserveSectors | packages/aquabsd.alps/libmkfs_msdos/src/mkfs_msdos.c:480-503 | info and backup sector are distinct, off the boot sector and inside the reserved area, whatever was asked for |
| Selection.ReservedExactly | packages/aquabsd.alps/libmkfs_msdos/src/mkfs_msdos.c:480-503 | sectors asked for are kept, those left open are the first behind the bootstrap and each other, and the area needs no more than to hold them |
| Selection.ReserveRefused | packages/aquabsd.alps/libmkfs_msdos/src/mkfs_msdos.c:480-503 | the exact condition of each of the three refusals |
| Selection.ReservedAgain | packages/aquabsd.alps/libmkfs_msdos/src/mkfs_msdos.c:480-503 | asking for the chosen sectors chooses them again |
| Selection.AutomaticFat32CanFail | packages/aquabsd.alps/libmkfs_msdos/src/mkfs_msdos.c:468-474 | a 2 GiB disk with 32 KiB clusters: FAT32 is picked and then refused |
| Limits.GivenFatMisleads | packages/aquabsd.alps/libmkfs_msdos/src/mkfs_msdos.c:581-599 | one sector per FAT on 100000 sectors: accepted as FAT12, read as FAT32 |
| Inputs.GivenFatInput | packages/aquabsd.alps/libmkfs_msdos/src/mkfs_msdos.c:265-510 | options that lead to that layout |
| Limits.AlignedCutMisleads | packages/aquabsd.alps/libmkfs_msdos/src/mkfs_msdos.c:553-599 | aligning 40000 sectors: cut for FAT12, read as FAT16 |
| Inputs.AlignedCutInput | packages/aquabsd.alps/libmkfs_msdos/src/mkfs_msdos.c:265-510 | options that lead to that layout |
| Limits.LastClusterHasNoEntry | packages/aquabsd.alps/libmkfs_msdos/src/mkfs_msdos.c:581-588 | 375 sectors with defaults: the reader's last cluster has no FAT entry |
| Inputs.SmallDiskInput | packages/aquabsd.alps/libmkfs_msdos/src/mkfs_msdos.c:334-479 | a disk of 375 sectors with every option left alone leads to that layout |
| Inputs.TwoGibInput | packages/aquabsd.alps/libmkfs_msdos/src/mkfs_msdos.c:334-593 | a 2 GiB disk with every option left alone: FAT32 is picked and then refused |
| Inputs.MediumDiskInput | packages/aquabsd.alps/libmkfs_msdos/src/mkfs_msdos.c:334-599 | a 64 MiB disk with every option left alone becomes a FAT16 volume of the whole disk |
| Inputs.OffsetBehindInput | packages/aquabsd.alps/libmkfs_msdos/src/mkfs_msdos.c:334-599 | an offset of 1 MiB on a disk of 512 KiB: the size wraps and the volume is accepted |
| Inputs.ReservedOverflowInput | packages/aquabsd.alps/libmkfs_msdos/src/mkfs_msdos.c:265-530 | options that make alignment pad the reserved area to 65536 sectors |
| Inputs.ReservedOverflowMisleads | packages/aquabsd.alps/libmkfs_msdos/src/mkfs_msdos.c:521-599 | that volume is accepted, its header says no reserved sectors, and the reader counts more clusters than FAT32 allows |
| OptionChecks.ConfigureIsValid | packages/aquabsd.alps/libmkfs_msdos/src/mkfs_msdos.c:265-455 | every combination of options and geometry that passes the checks is one the layout is defined for |
| OptionChecks.OptionsAreHonoured | packages/aquabsd.alps/libmkfs_msdos/src/mkfs_msdos.c:315-432 | what is asked for, geometry included, is what the layout is given; a block size becomes the cluster of exactly that size |
| Requests.DeviceIsHonoured | packages/aquabsd.alps/libmkfs_msdos/src/mkfs_msdos.c:334-351 | without a full geometry what is missing is the device's, and the size is that asked for or the device's less the offset exactly if the offset is not behind it |
| Requests.GeometryIsTaken | packages/aquabsd.alps/libmkfs_msdos/src/mkfs_msdos.c:323-333 | with a full geometry it is taken as given and the cluster size stays open |
| Requests.FloppyIsKept | packages/aquabsd.alps/libmkfs_msdos/src/mkfs_msdos.c:316-333 | of a floppy format all is kept that is not asked for otherwise; on FAT32 there are no root entries |
| Requests.OpenRequests | packages/aquabsd.alps/libmkfs_msdos/src/mkfs_msdos.c:364-380 | what is not asked for stays open, but for two FATs and the FAT type that info and backup sectors imply |
| Requests.SuggestedExactly | packages/aquabsd.alps/libmkfs_msdos/src/mkfs_msdos.c:339-350 | the suggested cluster by size: one sector up to 6000 sectors, s sectors up to 2048 s^2 |
| Requests.FatLegalExactly | packages/aquabsd.alps/libmkfs_msdos/src/mkfs_msdos.c:364-380 | the exact combinations of FAT type, root entries, info and backup sectors that pass |
| Requests.ClusterLegalExactly | packages/aquabsd.alps/libmkfs_msdos/src/mkfs_msdos.c:383-407 | a cluster size passes exactly if it is a legal number of sectors, or a block of a legal number of sectors |
| Requests.BootLegalExactly | packages/aquabsd.alps/libmkfs_msdos/src/mkfs_msdos.c:436-453 | a bootstrap file passes exactly if it is 1 to 65535 whole sectors |
| Requests.CheckedExactly | packages/aquabsd.alps/libmkfs_msdos/src/mkfs_msdos.c:352-455 | the checks pass exactly if every single request is legal |
| Requests.ProbedExactly | packages/aquabsd.alps/libmkfs_msdos/src/mkfs_msdos.c:334-338 | probing fails exactly if a missing part of the geometry is zero or too large on the device |
| Formats.FormatsAddUp | packages/aquabsd.alps/libmkfs_msdos/src/mkfs_msdos.c:175-190 | every floppy format has the bytes its name says, whole tracks of 40, 77 or 80 cylinders, and whole sectors of root entries |
| Formats.FormatsByMedia | packages/aquabsd.alps/libmkfs_msdos/src/mkfs_msdos.c:175-190 | the media byte of a format tells its sides, sectors per track and tracks |
| Formats.FormatsAreSnug | packages/aquabsd.alps/libmkfs_msdos/src/mkfs_msdos.c:175-190 | the FATs of every floppy format are exactly as long as its clusters need |
| Formats.FormatsAreAccepted | packages/aquabsd.alps/libmkfs_msdos/src/mkfs_msdos.c:175-599 | every floppy format is accepted as it stands, and a reader counts exactly its clusters, as FAT12 |
| Formats.FormatIsPosed | packages/aquabsd.alps/libmkfs_msdos/src/mkfs_msdos.c:316-510 | asking for a format and nothing else poses that layout |
| Writer.SectorWriter.Compose | packages/aquabsd.alps/libmkfs_msdos/src/mkfs_msdos.c:676-760 | the in-place stores leave exactly the declared sector, and nothing else in front of it changes |
| Writer.SectorWriter.Advance | packages/aquabsd.alps/libmkfs_msdos/src/mkfs_msdos.c:765-773 | output and buffer together grow by the sector; img stays on a sector boundary inside the buffer |
| Writer.WriteVolume | packages/aquabsd.alps/libmkfs_msdos/src/mkfs_msdos.c:628-787 | all writes together are the sectors in order; if and only if a write fails or stops short that is not achieved, and a prefix of them is on the device |
| Writer.ChunkHoldsSectors | packages/aquabsd.alps/libmkfs_msdos/src/mkfs_msdos.c:866-875 | a power-of-two chunk above the largest sector is a whole number of sectors |
| RoundTrip.BootRoundTrip | packages/aquabsd.alps/libmkfs_msdos/src/mkfs_msdos.c:677-731 | parsing the standard offsets of a boot sector recovers the whole parameter block if and only if the reserved area fits 16 bits, and cuts only that otherwise |
| RoundTrip.NamesReadBack | packages/aquabsd.alps/libmkfs_msdos/src/mkfs_msdos.c:705-728 | OEM name, signature, volume id, label and type name are at their standard offsets |
| Labels.TextsReadBack | packages/aquabsd.alps/libmkfs_msdos/src/mkfs_msdos.c:705-728 | what a reader makes of label, OEM name and type name in the boot sector, given or not |
| Labels.LabelText | packages/aquabsd.alps/libmkfs_msdos/src/mkfs_msdos.c:1072-1097 | a legal label is read back in capitals, whatever its first byte |
| Labels.LabelLegalExactly | packages/aquabsd.alps/libmkfs_msdos/src/mkfs_msdos.c:1055-1068 | a label is legal exactly if it fits a short name, does not begin with a space, and every byte may stand in one |
| Labels.ZerosReadBack | packages/aquabsd.alps/libmkfs_msdos/src/mkfs_msdos.c:696-704 | drive number, flags, version and reserved bytes of the header are zero |
| Labels.JumpLeadsToCode | packages/aquabsd.alps/libmkfs_msdos/src/mkfs_msdos.c:721-730 | the jump at the start leads to the boot code, in front of the signature |
| ReadBack.LabelReadsBackExactly | packages/aquabsd.alps/libmkfs_msdos/src/mkfs_msdos.c:732-759 | the label entry stands in the written image, with name, attribute, time and date, if and only if the FSInfo copy misses its sector |
| Tables.ImageSector | packages/aquabsd.alps/libmkfs_msdos/src/mkfs_msdos.c:647-676 | sector n of the image is the sector composed for n |
| Tables.FatsAreFreshExactly | packages/aquabsd.alps/libmkfs_msdos/src/mkfs_msdos.c:732-747 | all FATs are fresh and identical if and only if the second FSInfo copy misses them |
| Tables.FreshEntries | packages/aquabsd.alps/libmkfs_msdos/src/mkfs_msdos.c:741-747 | a fresh FAT decodes to the media entry, all ones, end of chain for the FAT32 root, and free clusters |
| Mkfs.Format | packages/aquabsd.alps/libmkfs_msdos/src/mkfs_msdos.c:235-798 | from options and geometry to the device: which refusals write nothing, what success has written, that nothing else but a failed write prevents it, and that this leaves a first part of the image |
| ReadBack.VolumeReadsBack | packages/aquabsd.alps/libmkfs_msdos/src/mkfs_msdos.c:235-798 | for all options with alignment off and FAT size computed, the image alone gives back parameter block, FAT type, allowed count and extent; a bootstrap file's contents are not in the image |
| ReadBack.DefaultVolumeReadsBack | packages/aquabsd.alps/libmkfs_msdos/src/mkfs_msdos.c:235-798 | for all options with alignment off and default sectors, every FAT decodes for every laid-out cluster and the root directory is as meant |
| Answers.RequestsReadBack | packages/aquabsd.alps/libmkfs_msdos/src/mkfs_msdos.c:235-798 | for all options that are accepted, the parsed header of the image holds every value that was asked for |
| Answers.BlockSizeReadsBack | packages/aquabsd.alps/libmkfs_msdos/src/mkfs_msdos.c:383-407 | a block size asked for is the cluster size in bytes in the parsed header |
| Answers.GeometryReadsBack | packages/aquabsd.alps/libmkfs_msdos/src/mkfs_msdos.c:315-351 | the parsed header has the geometry asked for or the device's, and the volume ends inside the size asked for or the device unless the offset is behind that |
| Answers.DefaultsReadBack | packages/aquabsd.alps/libmkfs_msdos/src/mkfs_msdos.c:454-605 | what was left open reads back as two FATs, 512 root entries and the media byte of a disk or a partition |
| Answers.NamesAreAnswered | packages/aquabsd.alps/libmkfs_msdos/src/mkfs_msdos.c:705-759 | the image has the volume id and the names that were asked for, and the label with the clock's time in its root unless the FSInfo copy takes the place |
| Answers.DateReadsBackExactly | packages/aquabsd.alps/libmkfs_msdos/src/mkfs_msdos.c:752-758 | the date of the label reads back exactly if the year is 1980 to 2107 |
| ReadBack.TypeReadsBackExactly | packages/aquabsd.alps/libmkfs_msdos/src/mkfs_msdos.c:552-731 | for every accepted layout, the exact condition under which the written bytes have an allowed cluster count, and then the type is the one formatted |
| ReadBack.ExtentReadsBack | packages/aquabsd.alps/libmkfs_msdos/src/mkfs_msdos.c:637-647 | if the reserved area fits 16 bits, the written sectors end with the root directory as the reader locates it, inside the total |
| ReadBack.FatReadsBack | packages/aquabsd.alps/libmkfs_msdos/src/mkfs_msdos.c:741-747 | every FAT decodes correctly for every laid-out cluster unless the FSInfo copy hits a FAT |
| ReadBack.RootReadsBack | packages/aquabsd.alps/libmkfs_msdos/src/mkfs_msdos.c:732-760 | the root directory is as meant if and only if the FSInfo copy misses it |
| ReadBack.BackupReadsBack | packages/aquabsd.alps/libmkfs_msdos/src/mkfs_msdos.c:677-679 | the backup boot sector in the image is the boot sector and parses to the same block |
| ReadBack.InfoReadsBack | packages/aquabsd.alps/libmkfs_msdos/src/mkfs_msdos.c:732-740 | the info sector is where the header says and carries its signatures |
| ReadBack.InfoCopyReadsBack | packages/aquabsd.alps/libmkfs_msdos/src/mkfs_msdos.c:732-740 | the second info sector is the same as the first |
| ReadBack.ReservedReadsBack | packages/aquabsd.alps/libmkfs_msdos/src/mkfs_msdos.c:676-760 | every other reserved sector is empty |
| ReadBack.DefaultsAreClean | packages/aquabsd.alps/libmkfs_msdos/src/mkfs_msdos.c:480-530 | with default sectors the FSInfo copy lies below the reserved count for every sector size |
| Inputs.ThreeReservedInput | packages/aquabsd.alps/libmkfs_msdos/src/mkfs_msdos.c:265-593 | options with three reserved sectors that are accepted |
| ReadBack.ThreeReservedSectorsLoseTheFat | packages/aquabsd.alps/libmkfs_msdos/src/mkfs_msdos.c:732-735 | with three reserved sectors the first FAT is overwritten |
| Inputs.RootHitInput | packages/aquabsd.alps/libmkfs_msdos/src/mkfs_msdos.c:265-510 | options for which FATs end right where the second FSInfo sector goes |
| Inputs.RootHitLosesTheRoot | packages/aquabsd.alps/libmkfs_msdos/src/mkfs_msdos.c:637-760 | that volume is accepted, its root directory is overwritten, and so is its label if it has one |
| CopyLoop.CopyData | packages/aquabsd.alps/libcopyfile/src/copyfile.c:512-590 | for any block size, short reads and short writes: 0 without a read error leaves the destination with the source's rest laid over it and cut to the recorded size; a read error returns 0 too, and then, as after a failure, a first part is laid over and nothing cut; without faults the copy succeeds, also from a directory, where it does nothing; nothing else changes |
| CopyLoop.WriteBlock | packages/aquabsd.alps/libcopyfile/src/copyfile.c:549-573 | however short the writes, what is taken of a block lies on the destination as one write; the give-up branch is dead |
| CopyLoop.RunProgress | packages/aquabsd.alps/libcopyfile/src/copyfile.c:546-574 | however the source was cut into blocks, a run of the loops moves it on from where it was, by induction over the blocks |
| CopyLoop.FaithfulExactly | packages/aquabsd.alps/libcopyfile/src/copyfile.c:546-585 | only a copy from start to start, or of an empty file, makes any destination the source whatever they hold |
| CopyLoop.CopyFromEnd | packages/aquabsd.alps/libcopyfile/src/copyfile.c:546-585 | from the end of the source nothing is copied: the destination is cut or filled up with zeros |
| CopyLoop.WholeCopy | packages/aquabsd.alps/libcopyfile/src/copyfile.c:546-585 | from two fresh descriptors the destination becomes the source even if it was longer |
| CopyLoop.LaidMore | packages/aquabsd.alps/libcopyfile/src/copyfile.c:553-571 | one more write keeps the destination's prefix and the source, also when both are the same file |
| CopyFile.RetryOpen | packages/aquabsd.alps/libcopyfile/src/copyfile.c:460-492 | the retry loop ends; under COPYFILE_EXCL success means this call made the file, with COPYFILE_DATA the descriptor is writable; failure changes nothing; without a fault every acceptable name is opened, though write access be denied at first, or a directory be there |
| CopyFile.State.OpenFiles | packages/aquabsd.alps/libcopyfile/src/copyfile.c:389-504 | no descriptor that was there and no node changes; opened ones are held, named and at their start; under COPYFILE_EXCL or COPYFILE_UNLINK the destination is one this call made, a directory exactly for a directory; a descriptor is left unopened only if no open was tried for it, and a failed one stays failed; what can be opened is, without faults |
| CopyFile.State.SetSource | packages/aquabsd.alps/libcopyfile/src/copyfile.c:193-211 | a new name closes the old descriptor and no other; the same name keeps it |
| CopyFile.CopyNamed | packages/aquabsd.alps/libcopyfile/src/copyfile.c:167-232 | on any state, a clean return leaves the destination as the positions of the state's descriptors say and touches nothing else; without COPYFILE_DATA nothing that was there changes; failure leaves no half-written file under the name; under COPYFILE_EXCL or COPYFILE_UNLINK a destination opened is new; a read error returns 0; names and descriptors are kept or replaced as given; an open that failed is never tried again; without faults it succeeds |
| CopyFile.CopyAlone | packages/aquabsd.alps/libcopyfile/src/copyfile.c:167-232 | without a state every descriptor is closed again and, on a clean return, the destination name has the source's contents; without COPYFILE_DATA, COPYFILE_EXCL or COPYFILE_UNLINK in the way no file that was there changes but the destination; a new destination is a directory exactly for a directory; failure leaves no half-written file under the name |
| CopyLimits.CopyAgain | packages/aquabsd.alps/libcopyfile/src/copyfile.c:193-232 | a state whose source has been read to its end makes the next destination a file of zeros and returns 0 |
| CopyLimits.SecondCopyIsZeros | packages/aquabsd.alps/libcopyfile/src/copyfile.c:167-232 | copying one source twice with one state leads there without any call failing |
| CopyLimits.RefusedOnce | packages/aquabsd.alps/libcopyfile/src/copyfile.c:193-504 | after a copy that COPYFILE_EXCL refuses, the same state refuses to copy to a free name too, although no call failed |
| CopyFile.CopyOpen | packages/aquabsd.alps/libcopyfile/src/copyfile.c:105-159 | fcopyfile never opens or closes a descriptor, with a state or without; without COPYFILE_DATA it changes nothing; on any state, a clean return leaves the destination as the positions of the two descriptors say, a failure with a first part of that, and the state takes over the descriptors it lacked |
| CopyFile.CopyOpenAlone | packages/aquabsd.alps/libcopyfile/src/copyfile.c:105-159 | without a state one is made and released again, and the release closes neither descriptor; without COPYFILE_DATA nothing changes |
| CopyFile.State.Internal | packages/aquabsd.alps/libcopyfile/src/copyfile.c:283-325 | without COPYFILE_DATA nothing happens; after a data copy that failed the destination's name is gone, unless it could not be removed |
| CopyLimits.CopyDirectory | packages/aquabsd.alps/libcopyfile/src/copyfile.c:167-459 | a directory is copied to a free name by making one there, with COPYFILE_DATA too, where the read error counts as success |
| CopyLimits.AdoptedAreClosed | packages/aquabsd.alps/libcopyfile/src/copyfile.c:105-381 | a state that fcopyfile filled, given names by copyfile and released, has closed the caller's two descriptors |
| CopyFile.Lifetime | packages/aquabsd.alps/libcopyfile/src/copyfile.c:167-381 | over any calls on one state and its release: the descriptor table is as before if and only if all that is held has a name, as it has unless memory ran out; every other descriptor opened is closed exactly once, and nobody else's is touched |
| CopyLimits.LostNameLeaks | packages/aquabsd.alps/libcopyfile/src/copyfile.c:193-381 | after a good copy, giving the source's name again leaks its descriptor if and only if there is no memory for the name |
| Kernel.ClosedOnce | packages/aquabsd.alps/libcopyfile/src/copyfile.c:347-381 | in a log that only opens new and closes open descriptors, each opened one is still open or was closed exactly once |

## Left out

- ReadBack.VolumeReadsBack: alignment off and FAT size computed, because otherwise the promise can fail; `ReadBack.TypeReadsBackExactly` and `Requested.ComputedTypeExactly` say exactly when. It is about the image without a bootstrap file's contents.
- ReadBack.FatReadsBack: needs the FSInfo copy outside the FATs; `Tables.FatsAreFreshExactly` is the exact condition.
- ReadBack.ExtentReadsBack: needs a reserved area of at most 65535 sectors; beyond that the header cannot hold it, by `RoundTrip.BootRoundTrip`.
- Mkfs.Format: no bootstrap file; its size is checked and reserves sectors, but its contents are not copied into the image.
- CopyLoop.CopyData: two descriptors at different places of one file are only shown to terminate and to leave everything else alone, with nothing said of that file; the buffer is a value, not a reused array.
- CopyFile.RetryOpen: EACCES is assumed not to be returned for ever, and CopyLoop writes of nothing not either; both are budgets of the kernel model. Writing to a device always fails in it.
- CopyFile.Lifetime: a descriptor stands for one opening, so the kernel's reuse of numbers is not modelled; `copyfile_state_set` is not part of it. Of runs that also call `fcopyfile` there is only `CopyLimits.AdoptedAreClosed`.
- Device probing, mount checks, signals, `-N`, `-C`, seeking to the offset, printing and warnings of mkfs_msdos: geometry, clock and the volume id made of it are inputs.
- `toupper` is modelled for ASCII only, and strings are byte sequences without NUL.
- Metadata calls of copyfile (fchmod, fchflags, fchown, futimes, preallocation), its debug output, `NOFOLLOW` flags and symbolic links.
- The kernel model is a closed world with one file system: no other process changes names or files during a call.
- libsettings, libiface, kld and everything under packages/nvidia: thin wrappers and packaging data.
