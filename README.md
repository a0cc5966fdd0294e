# rustos in Dafny

A Dafny model of the sequential core of rustos, a teaching operating system
for the Raspberry Pi (AArch64) written in Rust. The model covers the code
under the kernel that is deterministic and can be stated with pre- and
postconditions: the FAT32 file system's on-disk formats, the block-device
layers under it, the `no_std` I/O helpers, file-system paths, the buddy
allocator's arithmetic, page-entry permissions, the decoders for exception
syndromes, OS error codes, system calls, interrupts and ELF identification,
and the process bookkeeping and schedulers of the kernel.

One Dafny module models one Rust source file:

- `Common` (common.dfy): machine integers, `Option`/`Result`, powers of two,
  bitwise AND/OR on naturals and the little-endian codec that every module shares.
- FAT32: `Fat` (lib/vfat/src/fat.rs), `Clusters` (lib/vfat/src/cluster.rs),
  `Vfat` (lib/vfat/src/virtual_fat.rs), `DirEntry` (lib/fat32/src/entry.rs),
  `FatMetadata` (lib/vfat/src/metadata.rs) and `Bpb` (lib/vfat/src/bios_parameter_block.rs).
- Block devices: `Mbr` (lib/filesystem/src/master_boot_record.rs),
  `Partition` (lib/filesystem/src/partition.rs), `Device`
  (lib/filesystem/src/device.rs), `BlockCache` (lib/filesystem/src/cache.rs)
  and `SectorCache` (lib/fat32/src/vfat/cache.rs).
- Streams and paths: `Io` (lib/shim/src/no_std/io.rs) and `Paths` (lib/filesystem/src/path.rs).
- Memory: `Bins` (lib/allocator/src/bin.rs), `Align`
  (kern/src/allocator/util.rs) and `PageEntry` (kernel/src/memory/entry.rs).
- Decoders: `Syndrome` (kernel/src/traps/syndrome.rs), `KernelApi`
  (lib/kernel_api/src/lib.rs), `Interrupt` (lib/pi/src/interrupt.rs) and `Elf` (lib/elf/src/file.rs).
- Processes: `Resources` (kernel/src/process/resource.rs), `Pipes`
  (kernel/src/process/pipe.rs), `Processes` (kernel/src/process/process.rs)
  and `Scheduling` (kernel/src/process/scheduler.rs).
- Scheduling: `RoundRobin` (kernel/src/scheduling/round_robin.rs), `Policy`
  (kernel/src/scheduling/policy.rs), `RoundRobinPolicies`
  (kernel/src/scheduling/round_robin_policy.rs) and `FairPolicies` (kernel/src/scheduling/fair_policy.rs).
- The shell: `Shells` (kern/src/shell.rs).

Code that computes a value becomes datatypes, functions and lemmas. Code
that changes state step by step becomes a class whose methods are proved
against a specification function. That function describes the new state
and the result in terms of the old state, and lemmas prove what the source
promises about it. Fixed-width integers are bounded subsets of `int`.
Shifts and masks are written as division and remainder by powers of two, or
as the bitwise helpers of `Common`. A panic that the caller must rule out
(an `unwrap` on an invariant, a division by a size) becomes a precondition.
A panic that the code reaches on legal input is an explicit outcome of the
as-written member.

Several source files contain bugs. For each one, the model has a member that
follows the code as written, with a lemma exhibiting the discrepancy on a
concrete input. It also has a corrected member, with the intended property
proved about it. They are listed under "## Findings". The members that model
the source's operations, the classes among them, run the code as written;
the one class that runs corrected definitions instead, `Resources.ResourceList`,
is named under "## Left out". Where the source calls something that does not
exist, the model follows the evident intent:
- `parse_name` and `parse_entry` in lib/fat32/src/entry.rs refer to undefined
  names, which the model reads as the parameters.
- `is_ready`, called in kernel/src/process/scheduler.rs:266 and defined nowhere in the source, is modelled as `can_run` (kernel/src/process/process.rs:150-164, `Processes.CanRun`): a waiting process whose event has arrived becomes Ready, and the process can run exactly when it is then Ready.

## Model

| member | source | states |
|---|---|---|
| Fat.NewEoc | lib/vfat/src/fat.rs:23-25 | `new_eoc` is an end-of-chain status and survives encoding and classification unchanged |
| Fat.ToBytes | lib/vfat/src/fat.rs:49-53 | an entry is stored as exactly 4 bytes |
| Fat.BytesRoundTrip | lib/vfat/src/fat.rs:43-53 | the little-endian byte conversions are inverse in both directions |
| Fat.StatusRanges | lib/vfat/src/fat.rs:57-75 | on the low 28 bits: 0 is Free, 2..0x0FFFFFEF is Data of that cluster, 0x0FFFFFF7 is Bad, 0x0FFFFFF8..0x0FFFFFFF is Eoc, the rest is Reserved; the top four bits are ignored; `is_free` holds exactly when those bits are 0 |
| Fat.StatusRoundTrip | lib/vfat/src/fat.rs:31-41 | encoding a status and classifying it gives it back exactly when the status is one `status` can produce; every decoded status is such a one; re-encoding a non-Reserved status gives the low 28 bits back |
| Fat.FindLocatesEntry | lib/vfat/src/fat.rs:77-86 | `find` gives an offset below the sector size, a sector at or after the FAT start, and together they address byte 4·c of the FAT |
| Clusters.ClusterFromMasks | lib/vfat/src/cluster.rs:4-8 | `Cluster::from` keeps the raw value modulo 2^28, keeps 28-bit numbers as they are, is idempotent, and ignores the top four bits |
| Clusters.ToU32 | lib/vfat/src/cluster.rs:32-36 | the raw value of a cluster is below 2^28 |
| Clusters.Offset | lib/vfat/src/cluster.rs:23-25 | the entry offset is a multiple of 4 whose quarter is the cluster number |
| Clusters.FatEntryOffset | lib/vfat/src/cluster.rs:15-17 | the in-sector offset is below the sector size |
| Clusters.FatPositionRecomposes | lib/vfat/src/cluster.rs:11-17 | (sector − reserved) · bytes per sector + in-sector offset = 4·n, and the sector is never below the reserved area |
| Clusters.SectorRangesDisjoint | lib/vfat/src/cluster.rs:19-21 | clusters from 2 upward own consecutive, non-overlapping runs of `sectors_per_cluster` sectors, and the owning cluster is recovered from a start sector by division |
| Clusters.HighAndLowRecombine | lib/vfat/src/cluster.rs:27-29 | the high half shifted left by 16 ORed with the low half gives the cluster back, and the high half uses at most 12 bits |
| Vfat.ShiftedRead | lib/filesystem/src/device.rs:86-107 | at a block-aligned offset the plan as written never panics, and inside the device it reads as much of the buffer as the blocks after the offset's own block hold, from one block past the offset |
| Vfat.ShiftedWrite | lib/filesystem/src/device.rs:114-136 | at a block-aligned offset the plan as written never panics, and inside the device it writes as much of the buffer as the blocks after the offset's own block hold, one block past the offset, changing no other byte |
| Vfat.LayoutRegions | lib/vfat/src/virtual_fat.rs:263-279 | the FAT starts after the reserved sectors; the FAT size is the 16-bit field unless it is 0, else the 32-bit one; data starts after `number_of_fats` FAT copies, so a volume with at least one FAT has the first FAT wholly before the data |
| Vfat.EntryInFirstFat | lib/vfat/src/virtual_fat.rs:95-163 | every cluster below `number_of_fats` has its entry inside the first FAT copy |
| Vfat.VirtualFat.constructor | lib/vfat/src/virtual_fat.rs:259-281 | the volume is built from the parameter block with the geometry of `Vfat.Layout` |
| Vfat.VirtualFat.EntryFits | lib/vfat/src/fat.rs:77-86 | a FAT entry's 4 bytes lie inside its sector, at a multiple of 4 |
| Vfat.VirtualFat.EntriesApart | lib/vfat/src/fat.rs:77-86 | the entries of two different clusters in one sector do not overlap |
| Vfat.VirtualFat.FatEntryOf | lib/vfat/src/virtual_fat.rs:74-85 | `fat_entry` reads the entry's 4 bytes from its sector, or fails with the device's NotFound |
| Vfat.VirtualFat.NextCluster | lib/vfat/src/virtual_fat.rs:87-93 | an Eoc entry gives None, a Data entry gives Some of its cluster, any other status fails with InvalidClusterForNext, and a read error is passed on |
| Vfat.VirtualFat.NextFreeCluster | lib/vfat/src/virtual_fat.rs:95-111 | the result is the first scanned entry that is free; FilesystemOutOfMemory exactly when every entry below `number_of_fats` is readable and taken; a read error stops the scan at the first unreadable entry |
| Vfat.VirtualFat.Updated | lib/vfat/src/virtual_fat.rs:121-127 | (see `Vfat.VirtualFat.UpdateThenRead`) the sectors after the patch keep their size |
| Vfat.VirtualFat.UpdateFatEntry | lib/vfat/src/virtual_fat.rs:113-130 | the update succeeds exactly when the entry's sector exists, then the sectors are the patched ones; on failure (NotFound) nothing changes |
| Vfat.VirtualFat.UpdateThenRead | lib/vfat/src/virtual_fat.rs:113-130 | after the update the entry reads back as the encoded status, and so as the status itself when it is one `status` produces; every other cluster's entry reads as before |
| Vfat.VirtualFat.FatChain | lib/vfat/src/virtual_fat.rs:132-147 | on success the list starts at the given cluster, each entry links to the next, and the last entry is Eoc; on failure some such linked list ends at an entry that cannot be read (its error is returned) or that is neither Data nor Eoc (InvalidFatForSizing) |
| Vfat.VirtualFat.ClusterSectors | lib/vfat/src/virtual_fat.rs:45-50 | a cluster spans `sectors_per_cluster` sectors from its start sector |
| Vfat.VirtualFat.ReadCluster | lib/vfat/src/virtual_fat.rs:52-61 | through `stream_read` as written: at a sector-aligned offset it never panics and fails only with NotFound; inside the device it moves as much of the buffer as the sectors after the offset's own sector hold, and the buffer's first `amount` bytes are the cluster's bytes from one sector past the offset, the rest keep their value |
| Vfat.VirtualFat.WriteCluster | lib/vfat/src/virtual_fat.rs:63-72 | through `stream_write` as written: at a sector-aligned offset it never panics and fails only with NotFound; inside the device it moves as much of the buffer as the sectors after the offset's own sector hold, those bytes become the cluster's bytes from one sector past the offset, and every other byte of the device keeps its value |
| Vfat.VirtualFat.ReadBlock | lib/vfat/src/virtual_fat.rs:171-178 | Unsupported exactly when the buffer is not one cluster long, and then the buffer is untouched; otherwise, inside the device, it succeeds and, as `read_cluster` at offset 0 is written, the buffer receives the cluster's sectors after the first while its last sector's worth of bytes keep their value |
| Vfat.VirtualFat.WriteBlock | lib/vfat/src/virtual_fat.rs:180-187 | Unsupported exactly when the buffer is not one cluster long, and then the device is untouched; otherwise, inside the device, it succeeds and, as `write_cluster` at offset 0 is written, the buffer's front goes to the cluster's sectors after the first, while the first sector and every other byte of the device keep their value |
| DirEntry.ParseRegular | lib/fat32/src/entry.rs:18-31 | a decoded regular record has 8 name bytes, 3 extension bytes and a `last_modification` of the layout's width |
| DirEntry.RegularBytes | lib/fat32/src/entry.rs:18-31 | a regular record encodes to `RegularSize(width)` bytes |
| DirEntry.RegularPieces | lib/fat32/src/entry.rs:18-31 | each field of a regular record sits at its declared position, little-endian, in declaration order |
| DirEntry.RegularRoundTrip | lib/fat32/src/entry.rs:18-31 | decoding and encoding a regular record are inverse in both directions, in either layout |
| DirEntry.RegularParseOfBytes | lib/fat32/src/entry.rs:18-31 | encoding then decoding a regular record gives it back |
| DirEntry.RegularBytesOfParse | lib/fat32/src/entry.rs:18-31 | decoding then encoding a record's bytes gives the bytes back |
| DirEntry.AsDeclaredMisplacesFields | lib/fat32/src/entry.rs:25-30 | with `last_modification: u16` the record is 30 bytes, the low cluster half is read from bytes 24..26 and the size from 26..30; a record with low cluster 5 and size 0 is read as cluster 0 and size 5 |
| DirEntry.FixedLayoutOffsets | lib/fat32/src/entry.rs:18-31 | with a 4-byte time-and-date word the record is 32 bytes and the attribute, high cluster, low cluster and size sit at bytes 11, 20, 26 and 28 |
| DirEntry.LongBytes | lib/fat32/src/entry.rs:33-43 | a long-name record encodes to 32 bytes |
| DirEntry.LongRoundTrip | lib/fat32/src/entry.rs:33-43 | decoding and encoding a long-name record are inverse in both directions |
| DirEntry.LongParseOfBytes | lib/fat32/src/entry.rs:33-43 | encoding then decoding a long-name record gives it back |
| DirEntry.LongBytesOfParse | lib/fat32/src/entry.rs:33-43 | decoding then encoding 32 bytes gives them back |
| DirEntry.WideBytes | lib/fat32/src/entry.rs:61-64 | one-byte characters become twice as many UTF-16LE bytes |
| DirEntry.NewLongNameRoundTrip | lib/fat32/src/entry.rs:46-72 | the new record keeps the order, has attribute 0x0F, and its name fields decode to the name, cut to its first 13 characters |
| DirEntry.LoadClassifies | lib/fat32/src/entry.rs:83-94 | loading succeeds exactly when 32 bytes are available (otherwise the reader's stop reason is the error) and classifies by byte 11: 0 is EmptyAndOver, 0xE5 Empty, 0x0F a long-name record of those bytes, anything else a regular record of those bytes |
| DirEntry.SaveThenLoad | lib/fat32/src/entry.rs:100-114 | saving then classifying gives the entry back exactly for the empty slots, a long-name record with attribute 0x0F, and a regular record whose attribute byte is none of 0, 0xE5, 0x0F |
| DirEntry.Trimmed | lib/fat32/src/entry.rs:124-129 | the trimmed name is no longer than the field |
| DirEntry.TrimmedIsLongestPrefix | lib/fat32/src/entry.rs:124-129 | the trimmed bytes are the longest prefix without a space or NUL |
| DirEntry.Units | lib/fat32/src/entry.rs:128 | each byte becomes the code unit of the same value |
| DirEntry.ShortNameShape | lib/fat32/src/entry.rs:122-141 | the short name is the name up to the first space or NUL, followed by a dot and the extension up to its first space or NUL exactly when the extension does not start with one |
| DirEntry.NameBytes | lib/fat32/src/entry.rs:146-151 | the concatenated name fields have an even length |
| DirEntry.UnitsFromDecodes | lib/fat32/src/entry.rs:153-160 | the long name holds the little-endian pairs in order, none of them 0 or 0xFFFF, and stops only at such a pair or at the end |
| DirEntry.InsertFacts | lib/fat32/src/entry.rs:143-144 | inserting a record keeps the multiset and keeps key order |
| DirEntry.SortedByOrderFacts | lib/fat32/src/entry.rs:143-144 | the sorted records are a permutation of the records, ordered by `order & 0x1F` |
| DirEntry.InsertAt | lib/fat32/src/entry.rs:143-144 | a record is inserted after the last record whose key is not larger (the sort is stable) |
| DirEntry.SortByOrderInPlace | lib/fat32/src/entry.rs:143-144 | the array is sorted in place into `SortedByOrder` of its old contents |
| DirEntry.InsertInPlace | lib/fat32/src/entry.rs:143-144 | one insertion step: the prefix becomes the insertion of the next record, the rest is unchanged |
| DirEntry.ParseName | lib/fat32/src/entry.rs:121-164 | with no long-name records the name is the short name; otherwise the records are sorted in place by key and the name is decoded from their name bytes |
| DirEntry.ShortNameOf | lib/fat32/src/entry.rs:122-141 | the two loops of the first branch build the short name |
| DirEntry.CopyUntilStop | lib/fat32/src/entry.rs:124-129 | the name loop copies the bytes up to the first space or NUL |
| DirEntry.CollectNameBytes | lib/fat32/src/entry.rs:146-151 | the loop concatenates the three name fields of each record in order |
| DirEntry.DecodeUnits | lib/fat32/src/entry.rs:153-160 | the loop decodes pairs up to the first 0x0000 or 0xFFFF |
| DirEntry.TrimmedStep | lib/fat32/src/entry.rs:124-129 | a byte that is neither space nor NUL is kept and the scan goes on |
| DirEntry.ParseEntryFields | lib/fat32/src/entry.rs:166-181 | the starting cluster is the high half shifted left by 16 ORed with the low half and splits back into the two halves; the metadata keeps the attribute byte; the size is None exactly when bit 0x10 is set; a cluster split by `high_and_low` is found again |
| FatMetadata.DateFields | lib/vfat/src/metadata.rs:13-25 | every date word gives a year in 1980..2107, a month at most 15 and a day at most 31, and packing those fields gives the word back |
| FatMetadata.PackDateFields | lib/vfat/src/metadata.rs:13-25 | the accessors recover the year, month and day a date word was packed from |
| FatMetadata.TimeFields | lib/vfat/src/metadata.rs:31-43 | every time word gives an hour at most 31, a minute at most 63 and an even second at most 62, and packing those fields gives the word back |
| FatMetadata.PackTimeFields | lib/vfat/src/metadata.rs:31-43 | the accessors recover the hour, minute and even second a time word was packed from |
| FatMetadata.FromDateFields | lib/vfat/src/metadata.rs:52-59 | a timestamp made from a date has that date's fields and hour, minute and second 0 |
| FatMetadata.FlagBits | lib/vfat/src/metadata.rs:111-117 | `read_only` holds exactly when attribute bit 0 is set, `hidden` exactly when bit 1 is set |
| Bpb.Parse | lib/vfat/src/bios_parameter_block.rs:10-43 | a decoded block has the declared array lengths |
| Bpb.Run1 | lib/vfat/src/bios_parameter_block.rs:12-20 | the fields from the jump instructions to the media descriptor take 22 bytes |
| Bpb.Run2 | lib/vfat/src/bios_parameter_block.rs:21-28 | the fields from the 16-bit FAT size to the version take 22 bytes |
| Bpb.Run3 | lib/vfat/src/bios_parameter_block.rs:29-36 | the fields from the root cluster to the serial number take 27 bytes |
| Bpb.Run4 | lib/vfat/src/bios_parameter_block.rs:37-40 | label, system identifier, boot code and boot signature take 441 bytes |
| Bpb.Bytes | lib/vfat/src/bios_parameter_block.rs:43 | the block is exactly 512 bytes |
| Bpb.Run1Pieces | lib/vfat/src/bios_parameter_block.rs:12-20 | each field of the first 22 bytes is decoded from its declared position, little-endian |
| Bpb.Run1OfParse | lib/vfat/src/bios_parameter_block.rs:12-20 | re-encoding the decoded first run gives bytes 0..22 back |
| Bpb.Run2OfParse | lib/vfat/src/bios_parameter_block.rs:21-28 | re-encoding the decoded second run gives bytes 22..44 back |
| Bpb.Run3OfParse | lib/vfat/src/bios_parameter_block.rs:29-36 | re-encoding the decoded third run gives bytes 44..71 back |
| Bpb.Run4OfParse | lib/vfat/src/bios_parameter_block.rs:37-40 | re-encoding the decoded last run gives bytes 71..512 back |
| Bpb.BytesOfParse | lib/vfat/src/bios_parameter_block.rs:10-43 | every 512-byte block is the encoding of what it decodes to |
| Bpb.Run1Fields | lib/vfat/src/bios_parameter_block.rs:12-20 | each field of the first run is encoded at its declared offset |
| Bpb.Run2Fields | lib/vfat/src/bios_parameter_block.rs:21-28 | each field of the second run is encoded at its declared offset |
| Bpb.Run3Fields | lib/vfat/src/bios_parameter_block.rs:29-36 | each field of the third run is encoded at its declared offset |
| Bpb.ParseOfBytes | lib/vfat/src/bios_parameter_block.rs:10-43 | encoding a well-formed block and decoding it gives the block back |
| Bpb.LoadOutcome | lib/vfat/src/bios_parameter_block.rs:54-67 | `try_from` succeeds exactly when logical block 0 can be read and its last two bytes are 0x55 0xAA, and then the block is returned unchanged; BadSignature exactly when the read succeeds with another signature; a read error is passed on |
| Bpb.TryFrom | lib/vfat/src/bios_parameter_block.rs:54-67 | the method reads logical block 0 into a zeroed 512-byte buffer and returns what `Bpb.Load` specifies |
| Mbr.ChsSector | lib/filesystem/src/master_boot_record.rs:22-24 | the sector is the top six bits of the sector byte: below 64, and four times it is within 3 below the raw byte |
| Mbr.ChsCylinderIsZero | lib/filesystem/src/master_boot_record.rs:26-28 | as written the two operands of `&` share no bit, so the cylinder is always 0 |
| Mbr.ChsCylinderFixedFields | lib/filesystem/src/master_boot_record.rs:26-28 | the corrected cylinder (an OR in place of the AND) is a 10-bit number whose low byte is the cylinder byte and whose bits 8-9 are the sector byte's low two bits |
| Mbr.ChsBytes | lib/filesystem/src/master_boot_record.rs:10-15 | a CHS address is 3 bytes |
| Mbr.EntryBytes | lib/filesystem/src/master_boot_record.rs:41-49 | a partition entry is 16 bytes |
| Mbr.EntryRoundTrip | lib/filesystem/src/master_boot_record.rs:41-49 | decoding and encoding a partition entry are inverse in both directions |
| Mbr.EntryParseOfBytes | lib/filesystem/src/master_boot_record.rs:41-49 | encoding then decoding a partition entry gives it back |
| Mbr.EntryBytesOfParse | lib/filesystem/src/master_boot_record.rs:41-49 | decoding then encoding 16 bytes gives them back |
| Mbr.ParseMbr | lib/filesystem/src/master_boot_record.rs:51-57 | a decoded record has the declared field sizes |
| Mbr.MbrBytes | lib/filesystem/src/master_boot_record.rs:51-57 | the record is 512 bytes |
| Mbr.MbrRoundTrip | lib/filesystem/src/master_boot_record.rs:51-57 | decoding and encoding the record are inverse in both directions |
| Mbr.MbrParseOfBytes | lib/filesystem/src/master_boot_record.rs:51-57 | encoding then decoding a record gives it back |
| Mbr.MbrBytesOfParse | lib/filesystem/src/master_boot_record.rs:51-57 | decoding then encoding 512 bytes gives them back |
| Mbr.FirstUnknownIndicator | lib/filesystem/src/master_boot_record.rs:82-86 | the index found is the first entry whose boot indicator is neither 0 nor 0x80; None means every entry's indicator is known |
| Mbr.ValidateOutcome | lib/filesystem/src/master_boot_record.rs:77-88 | a record is accepted, unchanged, exactly when it carries 0x55 0xAA and all four indicators are known; BadSignature exactly when the signature is wrong; UnknownBootIndicator(i) names the first entry with an unknown indicator |
| Mbr.MbrFromOutcome | lib/filesystem/src/master_boot_record.rs:71-89 | `try_from` succeeds exactly when block 0 can be read into 512 bytes and passes validation, and then the record is block 0 decoded, encodes back to it, and has only known indicators |
| Partition.Factor | lib/filesystem/src/partition.rs:33-35 | the factor is the number of whole device blocks in a logical block (floor division) |
| Partition.VirtualToPhysicalLayout | lib/filesystem/src/partition.rs:39-48 | a logical block is mapped exactly when it is below the block count; mapped blocks lie inside the partition's physical range, and different logical blocks map to disjoint `factor`-long device ranges in the same order |
| Partition.WindowsCover | lib/filesystem/src/partition.rs:64-72 | the full windows cover the buffer up to less than one device block before its end |
| Partition.ReadWindows | lib/filesystem/src/partition.rs:64-72 | the windowed read keeps the buffer's length |
| Partition.WriteWindows | lib/filesystem/src/partition.rs:85-93 | the windowed write keeps the device's block count and block sizes |
| Partition.WindowsEnd | lib/filesystem/src/partition.rs:64-72 | the end of the full windows lies between their start and the buffer's end |
| Partition.WindowsSpan | lib/filesystem/src/partition.rs:64-72 | the full windows span `Windows` device blocks' worth of bytes and leave less than one device block after them |
| Partition.ReadWindowsContents | lib/filesystem/src/partition.rs:56-75 | the read succeeds exactly when every full window has a device block (else NotFound); the full windows then hold the device blocks from `block` on, one after the other; the bytes outside the full windows keep their value |
| Partition.WriteWindowsContents | lib/filesystem/src/partition.rs:77-96 | the write succeeds exactly when every full window has a device block (else NotFound); the device blocks from `block` on then hold the full windows in order; every other device block is unchanged, even on failure |
| Partition.ReadAfterWriteOk | lib/filesystem/src/partition.rs:56-96 | after a successful windowed write, reading the same windows back succeeds |
| Partition.ReadAfterWriteData | lib/filesystem/src/partition.rs:56-96 | after a successful windowed write, reading the same windows back gives the written bytes up to the end of the full windows |
| Partition.ReadAfterWrite | lib/filesystem/src/partition.rs:56-96 | after a successful windowed write, the read back succeeds and, when the windows cover the buffer, returns exactly the data written |
| Partition.BlockPartition.constructor | lib/filesystem/src/partition.rs:110-115 | the partition keeps the device, offset, count and block size it is given |
| Partition.BlockPartition.SetBlockSize | lib/filesystem/src/partition.rs:27-29 | the block size becomes the one given |
| Partition.BlockPartition.ReadBlock | lib/filesystem/src/partition.rs:56-75 | the method's result and buffer are those of `ReadSpec` on the device's blocks |
| Partition.BlockPartition.WriteBlock | lib/filesystem/src/partition.rs:77-96 | the method's result and new device blocks are those of `WriteSpec` on the old blocks |
| Partition.PartitionRejects | lib/filesystem/src/partition.rs:57-83 | Unsupported exactly for a buffer whose length is not the block size, changing nothing; NotFound, changing nothing, for a block at or past the block count |
| Partition.PartitionWindow | lib/filesystem/src/partition.rs:61-96 | a transfer of an in-range block succeeds exactly when the device has its `factor` device blocks, and a write changes no device block outside them |
| Partition.PartitionReadAfterWrite | lib/filesystem/src/partition.rs:56-96 | when the device block size divides the logical block size, reading a block back after a successful write returns Ok and exactly the written data |
| Partition.WindowsFactor | lib/filesystem/src/partition.rs:33-64 | a buffer of the logical block size has `factor` full windows |
| Partition.FirstOfType | lib/filesystem/src/partition.rs:106-108 | the index found is the first entry of the requested type; None means no entry has it |
| Partition.LocateOutcome | lib/filesystem/src/partition.rs:102-116 | a partition is opened exactly when the boot record is valid and an entry has the requested type; the window is then the first such entry's offset and size with the device's block size; a valid record without one gives BadSignature |
| Partition.TryFrom | lib/filesystem/src/partition.rs:102-116 | the method returns a new partition over the device with the window `Locate` specifies, or `Locate`'s error |
| Device.BlockCheck | lib/filesystem/src/device.rs:78-82 | a block transfer is accepted exactly when the buffer is one block long and the block exists |
| Device.Splice | lib/filesystem/src/device.rs:101 | the spliced sequence keeps its length, holds the piece at its window and the old bytes elsewhere |
| Device.CopyInto | lib/filesystem/src/device.rs:101-129 | `copy_from_slice` copies the source into the window of the array and nothing else |
| Device.Disk.constructor | lib/filesystem/src/device.rs:78-82 | an in-memory block device with the given block size and blocks |
| Device.Disk.ReadBlock | lib/filesystem/src/device.rs:80 | `read_block` returns Unsupported for a buffer not one block long, NotFound for a missing block, else copies the block into the buffer window |
| Device.Disk.WriteBlock | lib/filesystem/src/device.rs:81 | `write_block` returns Unsupported or NotFound in the same cases, else replaces exactly that block |
| Device.MainChunks | lib/filesystem/src/device.rs:91-119 | `chunks(block_size)` of the buffer from `d`, zipped with the blocks, stays inside the buffer |
| Device.OffsetData | lib/filesystem/src/device.rs:141-143 | `offset_data` gives the number of whole blocks before the offset and a small offset in 1..block_size |
| Device.PlanAsWritten | lib/filesystem/src/device.rs:84-120 | the chunks the source visits stay inside the buffer whenever the split does not panic |
| Device.PlanFixed | lib/filesystem/src/device.rs:84-120 | the corrected chunks stay inside the buffer |
| Device.ReadPiece | lib/filesystem/src/device.rs:94-102 | the bytes a chunk reads are as many as the chunk is long |
| Device.WrittenBlock | lib/filesystem/src/device.rs:122-130 | the block a chunk writes is one block long |
| Device.ExecRead | lib/filesystem/src/device.rs:93-107 | the read closure run over a plan keeps the buffer's length |
| Device.ExecWrite | lib/filesystem/src/device.rs:121-136 | the write closure run over a plan keeps the device's block count and block sizes |
| Device.ExecReadStep | lib/filesystem/src/device.rs:93-107 | a transferable first chunk is read into the buffer, `last_block` becomes its block and `amount` grows by its length, then the run goes on |
| Device.ExecWriteStep | lib/filesystem/src/device.rs:121-136 | a transferable first chunk is written, `last_block` becomes its block and `amount` grows by its length, then the run goes on |
| Device.ExecReadFault | lib/filesystem/src/device.rs:95-101 | a first chunk whose block is missing, or whose window runs past the block, ends the read with that error or a panic and the buffer unchanged |
| Device.ExecWriteFault | lib/filesystem/src/device.rs:123-130 | the same chunk faults end the write with the device unchanged |
| Device.ChunkFault | lib/filesystem/src/device.rs:95-130 | a chunk faults (missing block: NotFound; window past the block: a slice panic) exactly when it cannot be transferred |
| Device.ReadShadow | lib/filesystem/src/device.rs:97-98 | the shadow is a fresh block-sized buffer that holds the block when the read succeeds |
| Device.ReadChunk | lib/filesystem/src/device.rs:94-102 | one iteration of the read closure: the chunk's fault, or the buffer with the chunk's bytes in its window |
| Device.WriteChunk | lib/filesystem/src/device.rs:122-131 | one iteration of the write closure: the chunk's fault, or the block written (read-modify-write for a partial chunk) |
| Device.ReadChunkAt | lib/filesystem/src/device.rs:93-107 | chunk `i` of a read plan either stops the run with its fault or leaves the rest of the run to give the same result |
| Device.WriteChunkAt | lib/filesystem/src/device.rs:121-136 | chunk `i` of a write plan either stops the run with its fault or leaves the rest of the run to give the same result |
| Device.ExecuteRead | lib/filesystem/src/device.rs:90-109 | the loop over the plan gives the outcome and buffer `ExecRead` specifies |
| Device.ExecuteWrite | lib/filesystem/src/device.rs:118-138 | the loop over the plan gives the outcome and device blocks `ExecWrite` specifies |
| Device.StreamRead | lib/filesystem/src/device.rs:84-110 | `stream_read` as written panics, leaving the buffer alone, when the split exceeds the buffer, else runs the plan as written |
| Device.StreamWrite | lib/filesystem/src/device.rs:112-139 | `stream_write` as written panics, leaving the device alone, when the split exceeds the buffer, else runs the plan as written |
| Device.StreamReadFixed | lib/filesystem/src/device.rs:84-110 | the corrected read, on blocks that exist, is Done with amount = the buffer cut at the end of the stream, and the buffer holds the stream from `offset` in those places and its old bytes elsewhere |
| Device.StreamWriteFixed | lib/filesystem/src/device.rs:112-139 | the corrected write, on blocks that exist, is Done with that amount; the stream from `offset` holds the buffer's bytes and every other byte of every block is unchanged |
| Device.TilesFit | lib/filesystem/src/device.rs:91-119 | a plan that tiles a window of the buffer stays inside the buffer |
| Device.TilesInBlock | lib/filesystem/src/device.rs:99-128 | every chunk of a tiling plan is a window inside its block |
| Device.InBlockReadNeverPanics | lib/filesystem/src/device.rs:93-107 | a plan of in-block windows never panics when read: it runs to the end or stops at a missing block |
| Device.InBlockWriteNeverPanics | lib/filesystem/src/device.rs:121-136 | the same for writes |
| Device.FixedReadNeverPanics | lib/filesystem/src/device.rs:84-110 | the corrected read is Done or fails with NotFound |
| Device.FixedWriteNeverPanics | lib/filesystem/src/device.rs:112-139 | the corrected write is Done or fails with NotFound |
| Device.ReadChunkInto | lib/filesystem/src/device.rs:94-102 | reading one chunk puts the stream's bytes into the chunk's window of the buffer |
| Device.ReadCombine | lib/filesystem/src/device.rs:93-107 | two consecutive read windows make the joined window |
| Device.WriteChunkInto | lib/filesystem/src/device.rs:122-131 | writing one chunk puts the chunk's window of the buffer into the stream and keeps every other byte |
| Device.WriteCombine | lib/filesystem/src/device.rs:121-136 | two consecutive written windows make the joined window |
| Device.ReadTilesDone | lib/filesystem/src/device.rs:93-109 | a tiling read plan over existing blocks finishes Done, with the whole window's length, at the block of its last chunk |
| Device.ReadTiles | lib/filesystem/src/device.rs:93-109 | a tiling read plan copies the stream's bytes into the window and leaves the rest of the buffer |
| Device.WriteTilesDone | lib/filesystem/src/device.rs:121-138 | a tiling write plan over existing blocks finishes Done with the whole window's length |
| Device.WriteTiles | lib/filesystem/src/device.rs:121-138 | a tiling write plan puts the window into the stream byte for byte and changes nothing else |
| Device.MainChunksTiles | lib/filesystem/src/device.rs:91-119 | the whole-block chunks tile the buffer from `d` as far as the blocks reach |
| Device.PlanFixedAlignedTiles | lib/filesystem/src/device.rs:86-91 | at a block-aligned offset the corrected plan tiles the bytes a correct transfer moves |
| Device.PlanFixedUnalignedTiles | lib/filesystem/src/device.rs:86-91 | at an unaligned offset the corrected plan (a prefix from the middle of the block, then whole blocks) tiles those bytes |
| Device.UnalignedTotal | lib/filesystem/src/device.rs:86-91 | at an unaligned offset a correct transfer moves the prefix, cut to the buffer, and then as much of the rest as the blocks after the offset's own block hold |
| Device.UnalignedRestTiles | lib/filesystem/src/device.rs:86-91 | after an unaligned prefix the corrected whole-block chunks tile the rest of a correct transfer, inside the blocks `first..final` |
| Device.PlanFixedTiles | lib/filesystem/src/device.rs:86-91 | the corrected plan tiles exactly the bytes a correct transfer moves |
| Device.AsWrittenAlignedPlan | lib/filesystem/src/device.rs:86-91 | at a block-aligned offset the plan as written pairs an empty prefix with the first block and the buffer with the blocks after it |
| Device.MainChunksRead | lib/filesystem/src/device.rs:91-105 | whole-block chunks read the stream from their first byte into the buffer |
| Device.MainChunksWrite | lib/filesystem/src/device.rs:119-134 | whole-block chunks write the buffer into the stream from their first byte |
| Device.AsWrittenAlignedReadIsShifted | lib/filesystem/src/device.rs:86-107 | at a block-aligned offset `stream_read` as written fills the buffer from one block past the offset |
| Device.AsWrittenAlignedWriteIsShifted | lib/filesystem/src/device.rs:114-136 | at a block-aligned offset `stream_write` as written puts the buffer one block past the offset |
| Device.AsWrittenUnalignedPlan | lib/filesystem/src/device.rs:86-99 | at an unaligned offset the plan as written panics exactly when `block_size − offset % block_size` exceeds the buffer, and otherwise reads the prefix from that position, where the corrected plan reads from `offset % block_size` |
| Device.AsWrittenUnalignedReadPanics | lib/filesystem/src/device.rs:99-101 | when the offset lies in the first half of its block, `stream_read` as written panics |
| Device.AsWrittenUnalignedReadMirrors | lib/filesystem/src/device.rs:99-101 | in the second half, the prefix is read from the mirrored position `block_size − within` instead of `within` |
| Device.AsWrittenUnalignedHalts | lib/filesystem/src/device.rs:86-129 | at an unaligned offset inside the device, when the buffer is shorter than the prefix split off or the offset lies in the first half of its block, the first chunk as written panics before anything is read or written |
| Device.SingleChunkRead | lib/filesystem/src/device.rs:96-101 | a lone partial chunk copies its block window to the start of the buffer |
| Device.ReadBytes | lib/filesystem/src/device.rs:35-48 | `read` on a byte device fills at most the buffer, keeps what was already read, and returns the count read when it succeeds |
| Device.LeadingBytes | lib/filesystem/src/device.rs:35-48 | the bytes a device delivers before its first error |
| Device.ReadBytesTakesLeading | lib/filesystem/src/device.rs:35-48 | `read` delivers the device's leading bytes, as many as fit |
| Device.ReadBytesConsumes | lib/filesystem/src/device.rs:35-48 | `read` consumes every answer it looked at, the stopping error included |
| Device.ReadBytesFails | lib/filesystem/src/device.rs:43-47 | `read` fails exactly when it meets an error other than WouldBlock before the buffer is full, with that error |
| Device.Accepted | lib/filesystem/src/device.rs:52-65 | the bytes a device accepts before its first error |
| Device.WriteBytesTakesAccepted | lib/filesystem/src/device.rs:52-65 | `write` counts as many bytes as the device accepts and the buffer holds, and fails exactly at an error other than WouldBlock, with that error |
| Device.WriteBytes | lib/filesystem/src/device.rs:52-65 | `write` counts at most the buffer's length and returns that count when it succeeds |
| Device.Pending | lib/filesystem/src/device.rs:13-27 | the number of WouldBlock answers before the first other answer, which exists |
| Device.ByteDevice.constructor | lib/filesystem/src/device.rs:30-31 | a byte device with the given scripted answers and nothing sent |
| Device.ByteDevice.TryReadByte | lib/filesystem/src/device.rs:30 | the next scripted answer, WouldBlock when there is none |
| Device.ByteDevice.TryWriteByte | lib/filesystem/src/device.rs:31 | the next scripted answer; an accepted byte is sent |
| Device.ByteDevice.ReadByte | lib/filesystem/src/device.rs:11-19 | `read_byte` returns the first answer that is not WouldBlock and consumes the answers up to it |
| Device.ByteDevice.WriteByte | lib/filesystem/src/device.rs:20-28 | `write_byte` returns the first answer that is not WouldBlock, and the byte is sent when that answer is Ok |
| Device.ByteDevice.Read | lib/filesystem/src/device.rs:34-49 | the loop gives the result, buffer prefix and remaining answers `ReadBytes` specifies; the rest of the buffer is unchanged |
| Device.ByteDevice.Write | lib/filesystem/src/device.rs:51-65 | the loop gives the result and remaining answers `WriteBytes` specifies, and sends exactly the accepted prefix of the buffer |
| Device.ByteDevice.Flush | lib/filesystem/src/device.rs:67-69 | `flush` succeeds |
| Device.ByteDevice.Seek | lib/filesystem/src/device.rs:72-76 | seeking a byte device always fails with NotSeekable |
| BlockCache.NormalizedMax | lib/filesystem/src/cache.rs:25-31 | `new` treats a maximum of 0 as no bound; any other maximum is kept |
| BlockCache.Find | lib/filesystem/src/cache.rs:41-47 | the lookup returns the first entry for the block, and nothing exactly when no entry holds it |
| BlockCache.Evict | lib/filesystem/src/cache.rs:64-74 | `make_room_in_cache` pops the last entry exactly when the cache holds the maximum, and leaves the device alone as written |
| BlockCache.EvictValid | lib/filesystem/src/cache.rs:64-74 | making room keeps the cache well formed (one entry per block, within the bound), leaves it strictly under the bound and keeps the remaining entries |
| BlockCache.LoadValid | lib/filesystem/src/cache.rs:40-62 | `get_cache_entry_or_load` keeps the cache well formed and succeeds exactly when the block exists, returning the index of its entry; otherwise NotFound |
| BlockCache.LoadMiss | lib/filesystem/src/cache.rs:48-58 | on a miss the cache is first made room in; a block the device lacks is NotFound with the evicted cache kept, any other block is appended as the last entry, and the invariant holds either way |
| BlockCache.LoadDropsNewest | lib/filesystem/src/cache.rs:48-70 | a hit changes nothing; a miss in a full cache replaces the newest entry by the loaded block; a miss otherwise appends it |
| BlockCache.LoadKeepsView | lib/filesystem/src/cache.rs:40-74 | with write-back, a load changes what no block reads as |
| BlockCache.EvictKeepsView | lib/filesystem/src/cache.rs:64-74 | with write-back, making room changes what no block reads as |
| BlockCache.FindAppend | lib/filesystem/src/cache.rs:41-57 | pushing an entry for another block does not change where a block is found |
| BlockCache.FindPrefix | lib/filesystem/src/cache.rs:41-70 | popping an entry for another block does not change where a block is found |
| BlockCache.CleanLoadKeepsView | lib/filesystem/src/cache.rs:40-74 | when every entry agrees with the device, a load as written leaves the device alone, keeps the entries in agreement and changes no block's reading |
| BlockCache.CleanView | lib/filesystem/src/cache.rs:82-90 | when every entry agrees with the device, a block reads as the device's block |
| BlockCache.WriteView | lib/filesystem/src/cache.rs:97-98 | writing into an entry changes the reading of its block to the data and of no other block |
| BlockCache.FindOther | lib/filesystem/src/cache.rs:41-98 | writing into an entry does not change where any other block is found |
| BlockCache.ReadAfterWrite | lib/filesystem/src/cache.rs:82-99 | after a write of a block, loading the block again finds an entry holding the written data |
| BlockCache.EvictionLosesWrite | lib/filesystem/src/cache.rs:64-74 | as written, with room for one entry, a write to block 0 followed by a read of block 1 makes block 0 read as its old contents |
| BlockCache.WriteBackKeepsWrite | lib/filesystem/src/cache.rs:64-74 | with the evicted entry written back, the same sequence keeps block 0 as written, in the device too |
| BlockCache.CachedBlockDevice.constructor | lib/filesystem/src/cache.rs:25-38 | an empty cache in front of the device, with the normalised maximum |
| BlockCache.CachedBlockDevice.BlockSize | lib/filesystem/src/cache.rs:78-80 | the block size is the device's |
| BlockCache.CachedBlockDevice.FindEntry | lib/filesystem/src/cache.rs:41-47 | the search loop returns what `Find` specifies |
| BlockCache.CachedBlockDevice.MakeRoom | lib/filesystem/src/cache.rs:64-74 | the cache and device change as `Evict` specifies |
| BlockCache.CachedBlockDevice.GetEntryOrLoad | lib/filesystem/src/cache.rs:40-62 | the result, cache and device are those `Load` specifies |
| BlockCache.CachedBlockDevice.Fetch | lib/filesystem/src/cache.rs:50-58 | the block is read from the device into a new zeroed entry pushed at the end, whose index is returned; a missing block is NotFound and leaves the cache as it was; the invariant is kept |
| BlockCache.CachedBlockDevice.ReadBlock | lib/filesystem/src/cache.rs:82-90 | a buffer not one block long gives Unsupported and changes nothing; otherwise the state moves as `Load` says, the read succeeds exactly when the block exists and the buffer receives the block as it read before the call |
| BlockCache.CachedBlockDevice.WriteBlock | lib/filesystem/src/cache.rs:92-100 | a buffer not one block long gives Unsupported and changes nothing; otherwise the entry loaded for the block receives the data, the write succeeds exactly when the block exists, the block then reads as the data, and as written the device is never written |
| BlockCache.FindFirst | lib/filesystem/src/cache.rs:41-47 | the first entry holding the block is the one found |
| SectorCache.Factor | lib/fat32/src/vfat/cache.rs:62-64 | `factor` is the number of whole physical sectors in a logical sector, at least one when the logical sector is not smaller |
| SectorCache.VirtualToPhysical | lib/fat32/src/vfat/cache.rs:68-77 | a sector is mapped exactly when it is below `num_sectors`, and lands at or after the partition's start |
| SectorCache.PhysicalRunsDisjoint | lib/fat32/src/vfat/cache.rs:68-77 | distinct logical sectors map to disjoint, increasing runs of `factor` physical sectors inside the partition |
| SectorCache.Zeroed | lib/fat32/src/vfat/cache.rs:118-119 | the buffer resized to the sector size holds zeros |
| SectorCache.GatherLength | lib/fat32/src/vfat/cache.rs:121-124 | `n` physical sectors laid end to end are `n` sectors' worth of bytes |
| SectorCache.GatherAt | lib/fat32/src/vfat/cache.rs:121-124 | byte `i` of the gathered sectors is byte `i % size` of physical sector `first + i / size` |
| SectorCache.GatherIndex | lib/fat32/src/vfat/cache.rs:121-124 | the same for one byte |
| SectorCache.SectorBytes | lib/fat32/src/vfat/cache.rs:114-124 | a logical sector loads exactly when all its physical sectors exist |
| SectorCache.SectorBytesLayout | lib/fat32/src/vfat/cache.rs:118-124 | a loaded logical sector is `sector_size` bytes: the physical sectors in order, then zeros |
| SectorCache.LoadStep | lib/fat32/src/vfat/cache.rs:114-133 | a successful `load_from_disk` leaves the sector cached |
| SectorCache.LoadKeepsCached | lib/fat32/src/vfat/cache.rs:114-133 | `load_from_disk` succeeds exactly for a sector of the partition that is cached or whose physical sectors exist; fails with Other out of range and NotFound otherwise, changing nothing; keeps every cached entry and adds only the sector, clean |
| SectorCache.DirtyFlags | lib/fat32/src/vfat/cache.rs:89-112 | `get` changes no dirty flag and loads the sector clean; a successful `get_mut` leaves the sector dirty and no other flag changed |
| SectorCache.GetReturnsCached | lib/fat32/src/vfat/cache.rs:89-112 | `get` succeeds exactly when the sector is cached or loads, returns its cached bytes, and changes nothing on a hit; `get_mut` returns what `get` would |
| SectorCache.StepsKeepValid | lib/fat32/src/vfat/cache.rs:89-157 | every operation keeps the cache to sectors of the partition, each `sector_size` long, and every clean entry equal to the device's bytes |
| SectorCache.ReadAfterWrite | lib/fat32/src/vfat/cache.rs:143-157 | a completed write of a whole sector reports its length, and reading the sector then returns the written bytes |
| SectorCache.CachedPartition.constructor | lib/fat32/src/vfat/cache.rs:47-58 | `new` requires a logical sector at least one physical sector long and starts with an empty cache |
| SectorCache.CachedPartition.SectorSize | lib/fat32/src/vfat/cache.rs:139-141 | the logical sector size, at least the physical one |
| SectorCache.CachedPartition.LoadFromDisk | lib/fat32/src/vfat/cache.rs:114-133 | the result and cache are those `LoadStep` specifies |
| SectorCache.CachedPartition.Get | lib/fat32/src/vfat/cache.rs:105-112 | the result and cache are those `GetStep` specifies |
| SectorCache.CachedPartition.GetMut | lib/fat32/src/vfat/cache.rs:89-97 | the result and cache are those `GetMutStep` specifies |
| SectorCache.CachedPartition.ReadSector | lib/fat32/src/vfat/cache.rs:143-148 | `read_sector` fails with `get`'s error, panics in `copy_from_slice` when the buffer is not the sector's length, else copies the sector and returns its length |
| SectorCache.CachedPartition.WriteSector | lib/fat32/src/vfat/cache.rs:150-157 | `write_sector` fails with `get_mut`'s error, else overwrites the front of the cached sector, panicking once a longer buffer runs past its end |
| SectorCache.ReadRun | lib/fat32/src/vfat/cache.rs:118-124 | the loop of `load_from_disk` gives the bytes `SectorBytes` specifies |
| SectorCache.ReadWindow | lib/fat32/src/vfat/cache.rs:121-124 | one pass reads physical sector `phys + i` into its window after the ones already read, and fails exactly when that sector is missing |
| SectorCache.GatherStep | lib/fat32/src/vfat/cache.rs:121-124 | one more physical sector copied into its window extends the gathered bytes by that sector |
| Paths.SegEnd | lib/filesystem/src/path.rs:139-144 | the `take_while` stops at the next `/` or the end of the text, with no `/` before it |
| Paths.SegEndIs | lib/filesystem/src/path.rs:139-144 | any index ending a slash-free run from the start is where the segment ends |
| Paths.Classify | lib/filesystem/src/path.rs:146-151 | an empty segment is Root, "." Current, ".." Parent, and anything else a Child carrying the segment |
| Paths.ComponentsStep | lib/filesystem/src/path.rs:134-152 | `next` yields the component of the segment at the index and resumes one past the segment's end (for the character-indexed iteration, which is the source's on ASCII text) |
| Paths.ChildrenAreNames | lib/filesystem/src/path.rs:134-152 | every Child the iterator yields is nonempty, not a dot name and free of `/` |
| Paths.SlashFreeSlice | lib/filesystem/src/path.rs:143 | a segment cut by `take_while` holds no `/` |
| Paths.SplitStep | lib/filesystem/src/path.rs:134-152 | iterating a path that extends one ending in `/` takes the same first step as the shorter path (for the character-indexed iteration, which is the source's on ASCII text) |
| Paths.LastSegment | lib/filesystem/src/path.rs:134-152 | a final slash-free segment is one component (for the character-indexed iteration, which is the source's on ASCII text) |
| Paths.ComponentsSplit | lib/filesystem/src/path.rs:134-152 | after a `/`, appending a slash-free segment adds exactly its component (for the character-indexed iteration, which is the source's on ASCII text) |
| Paths.ComponentsSplitMore | lib/filesystem/src/path.rs:134-152 | the inductive step of that fact when the segment ends before the last `/` (for the character-indexed iteration, which is the source's on ASCII text) |
| Paths.ComponentsSplitLast | lib/filesystem/src/path.rs:134-152 | the inductive step when the segment ends at the last `/` (for the character-indexed iteration, which is the source's on ASCII text) |
| Paths.SegEndPrefix | lib/filesystem/src/path.rs:139-144 | a segment that ends inside a text ends at the same place once more is appended |
| Paths.TrailingSlash | lib/filesystem/src/path.rs:135-137 | a trailing `/` after a segment adds no component, since the index then reaches the end (for the character-indexed iteration, which is the source's on ASCII text) |
| Paths.SingleSegment | lib/filesystem/src/path.rs:134-152 | a nonempty slash-free text is one component |
| Paths.AsciiByteLen | lib/filesystem/src/path.rs:135 | an ASCII text is as long in bytes, the unit of `len`, as in characters |
| Paths.AsWrittenAgreesOnAscii | lib/filesystem/src/path.rs:134-152 | on ASCII text the iteration as written, whose index counts bytes, yields exactly the components of the character-indexed iteration |
| Paths.AsWrittenLosesNameAfterNonAscii | lib/filesystem/src/path.rs:135-145 | as written, "/é/x" yields Root, Child("é") and Root, and has no file name, where the character-indexed iteration ends with Child("x") |
| Paths.PushMergesNames | lib/filesystem/src/path.rs:92-99 | as written, pushing Child("y") onto "/x" gives a path whose components are Root and Child("xy"), not Root, Child("x"), Child("y") |
| Paths.AppendSegment | lib/filesystem/src/path.rs:92-99 | with the corrected separator, appending a segment adds exactly its component |
| Paths.PushFixedAppends | lib/filesystem/src/path.rs:92-99 | the corrected `push_component` of a name or `..` extends the path's components by exactly that component |
| Paths.JoinComponent | lib/filesystem/src/path.rs:52-63 | `join_str` fails with InvalidInput exactly for a text other than "/" that contains `/`; "/", "." and ".." all push Root; anything else pushes itself as a Child |
| Paths.PushedAllSnoc | lib/filesystem/src/path.rs:37-41 | pushing one more component appends what that component pushes |
| Paths.SplitFrom | lib/filesystem/src/path.rs:108-109 | `split('/')` yields at least one piece, none containing `/` |
| Paths.TryFromPiecesSucceed | lib/filesystem/src/path.rs:105-120 | the fold of `try_from` over pieces free of `/` never fails and never shortens the path |
| Paths.TryFromSucceeds | lib/filesystem/src/path.rs:105-120 | `try_from` never fails |
| Paths.TryFromJoinsNames | lib/filesystem/src/path.rs:105-120 | as written, `try_from("/a/b")` is the path "/ab" |
| Paths.SplitExample | lib/filesystem/src/path.rs:108-109 | "/a/b" splits into "", "a" and "b" |
| Paths.TryFromFixedKeepsSeparators | lib/filesystem/src/path.rs:105-120 | with the corrected push, `try_from("/a/b")` is "/a/b" |
| Paths.RelativeFromIsOther | lib/filesystem/src/path.rs:80-86 | as written, `relative_from` succeeds exactly when `other` is a prefix, and then returns `other` itself ("/mnt/a" relative from "/mnt" is "/mnt") |
| Paths.RelativeFromFixedRestores | lib/filesystem/src/path.rs:80-86 | the corrected `relative_from` succeeds exactly for a prefix, returns what follows it, and gives back any suffix appended to `other` |
| Paths.FileNameOfAppended | lib/filesystem/src/path.rs:43-50 | a name appended with the corrected separator is the last component's name, and on ASCII text it is what the source's `file_name` returns; "/" and the empty path have no file name |
| Paths.ComponentIterator.constructor | lib/filesystem/src/path.rs:33-35 | `components` starts at index 0 with every component of the as-written iteration still to come |
| Paths.ComponentIterator.Next | lib/filesystem/src/path.rs:134-152 | as written, `next` returns None once the index reaches the text's byte length; otherwise it returns the first component still to come and consumes it, the index moving on by the segment's length in bytes plus one |
| Paths.Path.Root | lib/filesystem/src/path.rs:29-31 | `root` is "/", whose only component is Root |
| Paths.Path.PushComponent | lib/filesystem/src/path.rs:92-99 | `push_component` as written appends "/" for Root or Current, ".." for Parent and the bare name for a Child |
| Paths.Path.JoinStr | lib/filesystem/src/path.rs:52-66 | `join_str` fails with InvalidInput, leaving the path, exactly when `JoinComponent` does, and otherwise pushes that component |
| Paths.Path.Join | lib/filesystem/src/path.rs:37-41 | `join` appends what pushing each component of `other`'s as-written iteration in turn appends |
| Io.U64AsI64 | lib/shim/src/no_std/io.rs:193 | `n as i64` keeps a value below 2^63 and turns a larger one negative |
| Io.CheckedI64 | lib/shim/src/no_std/io.rs:194-195 | `checked_add` and `checked_sub` give the exact value exactly when it fits in an `i64` |
| Io.SeekTargetBounds | lib/shim/src/no_std/io.rs:191-203 | `Cursor::seek` returns a position strictly inside the buffer or fails with InvalidInput; `Start(n)` succeeds exactly when `n` is below the length |
| Io.SeekToEndRejected | lib/shim/src/no_std/io.rs:194-199 | as written, `End(0)` is rejected for every buffer, because the target must be below the length |
| Io.SeekTargetFixedToEnd | lib/shim/src/no_std/io.rs:191-203 | the corrected seek reaches the end with `End(0)`, agrees with the source wherever the source succeeds, and stays within the buffer |
| Io.SliceRead | lib/shim/src/no_std/io.rs:206-215 | reading from a slice copies `min(buf.len(), self.len())` bytes to the front of the buffer and leaves the rest |
| Io.SliceWrite | lib/shim/src/no_std/io.rs:243-250 | writing into a slice copies `min(buf.len(), self.len())` bytes of the buffer over its front and leaves the rest |
| Io.Cursor.constructor | lib/shim/src/no_std/io.rs:182-187 | `Cursor::new` starts at position 0 |
| Io.Cursor.Seek | lib/shim/src/no_std/io.rs:191-203 | as written, `seek` returns the computed target and leaves the position where it was |
| Io.Cursor.SeekFixed | lib/shim/src/no_std/io.rs:191-203 | the corrected `seek` moves the position to the target it returns and leaves it on failure |
| Io.Cursor.Read | lib/shim/src/no_std/io.rs:217-239 | `read_with_buf` copies as many bytes as fit from the position on and advances the position by that count |
| Io.Cursor.Write | lib/shim/src/no_std/io.rs:257-291 | `write_with_buf` overwrites as many bytes as fit from the position on, keeps the rest, and advances by that count |
| Io.ReadStep | lib/shim/src/no_std/io.rs:109 | one `read` call hands over at most the room offered and consumes the reader's script |
| Io.ReadExactSpec | lib/shim/src/no_std/io.rs:111-133 | `read_exact` places at most the wanted bytes |
| Io.ReadExactMeetsAvailable | lib/shim/src/no_std/io.rs:111-133 | `read_exact` places the reader's bytes up to its end or first error, succeeds exactly when there are enough, and otherwise fails with UnexpectedEof at the end or with the error, retrying Interrupted |
| Io.Zeros | lib/shim/src/no_std/io.rs:138 | the scratch buffer is 256 zeros |
| Io.ReadToEndPadsTo256 | lib/shim/src/no_std/io.rs:135-145 | as written, a successful `read_to_end` appends a nonzero multiple of 256 bytes, whatever the stream held |
| Io.AddBlock | lib/shim/src/no_std/io.rs:140 | one more 256-byte block keeps the count a multiple of 256 |
| Io.ReadToEndOnEmptyStream | lib/shim/src/no_std/io.rs:135-145 | on an empty stream the source appends 256 zeros and reports 256, where the corrected version appends nothing |
| Io.ReadToEndFixedReadsStream | lib/shim/src/no_std/io.rs:135-145 | the corrected `read_to_end` appends exactly the stream up to its end or first error, and succeeds exactly when the stream ends cleanly |
| Io.ScriptedReader.constructor | lib/shim/src/no_std/io.rs:108-109 | a reader answering `read` calls from the given script |
| Io.ScriptedReader.Read | lib/shim/src/no_std/io.rs:109 | `read` into the tail of a buffer does what `ReadStep` specifies |
| Io.ScriptedReader.ReadExact | lib/shim/src/no_std/io.rs:111-133 | the loop gives the result and the buffer prefix `ReadExactSpec` specifies and leaves the rest of the buffer |
| Io.ScriptedReader.ReadScratch | lib/shim/src/no_std/io.rs:138-139 | one read into a fresh zeroed 256-byte buffer gives the bytes read followed by zeros |
| Io.ScriptedReader.ReadToEnd | lib/shim/src/no_std/io.rs:135-145 | the loop as written extends the vector and reports the count `ReadToEndSpec` specifies |
| Io.ScriptedReader.ReadToEndFixed | lib/shim/src/no_std/io.rs:135-145 | the corrected loop extends the vector and reports the count `ReadToEndFixedSpec` specifies |
| Io.ReadToEndStops | lib/shim/src/no_std/io.rs:139 | a failed read ends `read_to_end` with its error, propagated by `?` |
| Io.ReadToEndAdvance | lib/shim/src/no_std/io.rs:137-142 | a read appends the whole scratch buffer, and an empty read ends the loop successfully |
| Io.ReadToEndFixedStops | lib/shim/src/no_std/io.rs:139 | in the corrected version too, a failed read ends the loop with its error |
| Io.ReadToEndFixedAdvance | lib/shim/src/no_std/io.rs:137-142 | the corrected loop appends only the bytes read, and an empty read ends it |
| Io.Spliced | lib/shim/src/no_std/io.rs:114 | a read into `buf[i..]` keeps the buffer's length |
| Io.SplicedIs | lib/shim/src/no_std/io.rs:114 | a buffer that agrees byte by byte with a read into `buf[i..]` is that read's result |
| Io.ReadExactRetry | lib/shim/src/no_std/io.rs:122-124 | an Interrupted read is retried with the same request |
| Io.ReadExactAdvance | lib/shim/src/no_std/io.rs:118-120 | a read of `n` bytes advances `i` by `n` |
| Io.ReadExactUnfoldErr | lib/shim/src/no_std/io.rs:122-128 | any other error ends `read_exact` with that error |
| Io.ReadExactUnfoldEmpty | lib/shim/src/no_std/io.rs:115-117 | a read of 0 bytes ends `read_exact` with UnexpectedEof |
| Io.FilledPrefix | lib/shim/src/no_std/io.rs:113-120 | after a read into `buf[i..]` the filled prefix grows by the bytes read and the rest is as before |
| Io.ReadExactSpecEmpty | lib/shim/src/no_std/io.rs:113 | an empty buffer is filled without any read |
| Io.WriteStep | lib/shim/src/no_std/io.rs:149 | one `write` call takes at most the bytes offered and consumes the writer's script |
| Io.WriteAllSpec | lib/shim/src/no_std/io.rs:153-172 | `write_all` never counts more than the buffer |
| Io.WriteAllMeetsCapacity | lib/shim/src/no_std/io.rs:153-172 | `write_all` hands over as much of the buffer as the writer takes, succeeds exactly when it takes it all, and otherwise fails with WriteZero when a write takes nothing or with the error, retrying Interrupted |
| Io.ScriptedWriter.constructor | lib/shim/src/no_std/io.rs:148-149 | a writer answering `write` calls from the given script, with nothing written |
| Io.ScriptedWriter.Write | lib/shim/src/no_std/io.rs:149 | `write` does what `WriteStep` specifies and keeps the bytes it accepted |
| Io.ScriptedWriter.WriteAll | lib/shim/src/no_std/io.rs:153-172 | the loop gives the result `WriteAllSpec` specifies and the writer receives exactly that prefix of the buffer |
| Io.WriteAllUnfoldErr | lib/shim/src/no_std/io.rs:163-167 | a failed write ends `write_all` with its error unless it was Interrupted, which is retried |
| Io.WriteAllUnfoldZero | lib/shim/src/no_std/io.rs:157-159 | a write of 0 bytes ends `write_all` with WriteZero |
| Io.WriteAllAdvance | lib/shim/src/no_std/io.rs:160-162 | a write of `n` bytes advances `i` by `n` |
| Bins.LogTwo | lib/allocator/src/bin.rs:10-18 | `log_two` is None exactly for 0, and otherwise the floor of the base-2 logarithm |
| Bins.BinSize | lib/allocator/src/bin.rs:77-79 | a bin's block size is a multiple of 8, at least 8 |
| Bins.BinSizePow | lib/allocator/src/bin.rs:24-79 | block sizes are powers of two and double from one bin to the next |
| Bins.SizeToBin | lib/allocator/src/bin.rs:81-91 | `size_to_bin` always finds a bin |
| Bins.LogAboveEight | lib/allocator/src/bin.rs:85-90 | for a size above 8 the logarithm is at least 3, so `log - 3` does not underflow |
| Bins.SizeToBinSmallest | lib/allocator/src/bin.rs:81-91 | the bin chosen is the smallest whose blocks hold the size |
| Bins.BinZero | lib/allocator/src/bin.rs:24-79 | bin 0 holds 8-byte blocks |
| Bins.LogTwoPow2 | lib/allocator/src/bin.rs:10-18 | `log_two` of `2^k` is `k` |
| Bins.SizeToBinExact | lib/allocator/src/bin.rs:86-87 | a size of exactly `2^k`, `k >= 3`, goes to bin `k - 3` |
| Bins.IsAligned | lib/allocator/src/bin.rs:20-22 | `is_aligned` holds exactly when the address is a multiple of the alignment |
| Bins.ParityAligned | lib/allocator/src/bin.rs:93-101 | block `k` of a bin is aligned to twice the block size exactly when `k` is even |
| Bins.CoarserAligned | lib/allocator/src/bin.rs:67-71 | a block aligned for a bin is aligned for every smaller bin |
| Bins.NotDoubleAligned | lib/allocator/src/bin.rs:98-99 | the subtraction in `buddy` does not underflow |
| Bins.EvenBlock | lib/allocator/src/bin.rs:96-97 | the buddy of an even block is the odd block above it |
| Bins.OddBlock | lib/allocator/src/bin.rs:98-99 | the buddy of an odd block is the even block below it |
| Bins.BuddyPair | lib/allocator/src/bin.rs:93-101 | buddies come in pairs one block apart, each the other's buddy, and the lower of the two is aligned for the bin above |
| Bins.Middle | lib/allocator/src/bin.rs:105-116 | `bin_start` is the first aligned address at or above `start`, `bin_end` the last at or below `end`, and `bin_count` blocks fill the space between |
| Bins.TotalAppend | lib/allocator/src/bin.rs:103-125 | the bytes of two block lists add up |
| Bins.ConcatProps | lib/allocator/src/bin.rs:116-124 | block lists carved from adjacent ranges together stay in the joint range, disjoint and aligned |
| Bins.Run | lib/allocator/src/bin.rs:117-121 | the refill loop pushes the blocks `bin_start + bin_size * i` for `i` below the count |
| Bins.MultipleStep | lib/allocator/src/bin.rs:119 | each pushed block is aligned and the next starts where it ends |
| Bins.RunProps | lib/allocator/src/bin.rs:116-121 | the pushed blocks are aligned, disjoint, inside the aligned middle, and cover it exactly |
| Bins.RunPlaced | lib/allocator/src/bin.rs:116-121 | the pushed blocks are aligned, disjoint and inside the aligned middle |
| Bins.RunTotal | lib/allocator/src/bin.rs:116-121 | the pushed blocks cover `bin_size * bin_count` bytes |
| Bins.RunLast | lib/allocator/src/bin.rs:119 | one block of a bin is aligned and covers the bin size |
| Bins.Carve | lib/allocator/src/bin.rs:103-125 | the corrected `allocate_bins` only uses the bin it starts from and those below |
| Bins.CarveSkip | lib/allocator/src/bin.rs:109-114 | a bin with no aligned block in the region passes the region to the bin below, or stops at bin 0 |
| Bins.CarveSplit | lib/allocator/src/bin.rs:116-124 | above bin 0, the middle run is pushed and then the two leftover ends are carved by the bin below |
| Bins.PushAllThree | lib/allocator/src/bin.rs:116-124 | pushing the run and the two ends in turn is pushing their concatenation |
| Bins.CarveAsWrittenAgrees | lib/allocator/src/bin.rs:103-125 | wherever `allocate_bins` as written does not panic, it carves what the corrected version carves |
| Bins.CarveProps | lib/allocator/src/bin.rs:103-125 | the corrected refill hands out blocks inside the region, disjoint and aligned to their size |
| Bins.PermuteThree | lib/allocator/src/bin.rs:116-124 | putting the middle run before the left end keeps the blocks disjoint, aligned and in range |
| Bins.CarveCovers | lib/allocator/src/bin.rs:103-125 | for 8-aligned bounds the corrected refill covers the whole region |
| Bins.CarveCoversBinZero | lib/allocator/src/bin.rs:103-125 | bin 0 alone covers an 8-aligned region |
| Bins.SmallRegionSkipsBin | lib/allocator/src/bin.rs:105-109 | no bin above 0 fits a block in `[8, 16)` |
| Bins.SmallRegionBinZero | lib/allocator/src/bin.rs:105-116 | bin 0 fits exactly one block, at 8, in `[8, 16)` |
| Bins.CarveAsWrittenPanics | lib/allocator/src/bin.rs:103-125 | as written, refilling `[8, 16)` from any bin reaches bin 0 with a block to push and then computes `bin - 1` at bin 0, which panics |
| Bins.CarveSmallRegion | lib/allocator/src/bin.rs:103-125 | the corrected refill of `[8, 16)` yields its one 8-byte block |
| Bins.FreeBytesUpdate | lib/allocator/src/bin.rs:25-27 | replacing one free list changes the free bytes by the difference in its blocks |
| Bins.FreeBytesGrow | lib/allocator/src/bin.rs:25-27 | one more block in a bin adds that bin's size to the free bytes |
| Bins.Push | lib/allocator/src/bin.rs:43-119 | `push` puts the address at the head of that bin's list and touches no other bin |
| Bins.PushProps | lib/allocator/src/bin.rs:43-119 | a push adds the bin size to the free bytes and keeps every bin aligned when the address is |
| Bins.PushAll | lib/allocator/src/bin.rs:117-124 | pushing blocks in turn keeps the number of bins |
| Bins.PushAllProps | lib/allocator/src/bin.rs:117-124 | pushing blocks adds exactly their bytes to the free bytes and keeps the bins aligned when the blocks are |
| Bins.PushAllSnoc | lib/allocator/src/bin.rs:117-121 | pushing one block more is one more push |
| Bins.PushAllAppend | lib/allocator/src/bin.rs:117-124 | pushing two lists of blocks is pushing one after the other |
| Bins.RemoveFirst | lib/allocator/src/bin.rs:41 | `remove` reports whether the address was listed and, if so, drops one copy of it and nothing else |
| Bins.RemoveAt | lib/allocator/src/bin.rs:63 | a node's `pop` drops exactly that node |
| Bins.FirstAligned | lib/allocator/src/bin.rs:61-65 | the scan finds the first block meeting the alignment, and none exactly when no block does |
| Bins.BuddyDownStep | lib/allocator/src/bin.rs:57-75 | `buddy_down` returns a block aligned both as asked and to its bin, and changes nothing when it finds none |
| Bins.BuddyDownKeepsAligned | lib/allocator/src/bin.rs:57-75 | `buddy_down` keeps every free block aligned to its bin's size |
| Bins.BuddyDownFreeBytes | lib/allocator/src/bin.rs:57-75 | a block handed out leaves the free lists exactly its bin's size poorer, splits included |
| Bins.BuddyUpStep | lib/allocator/src/bin.rs:39-55 | `buddy_up` keeps the number of bins |
| Bins.BuddyUpKeepsAligned | lib/allocator/src/bin.rs:39-55 | `buddy_up` keeps every free block aligned to its bin's size |
| Bins.BuddyUpFreeBytes | lib/allocator/src/bin.rs:39-55 | a returned block adds exactly its bin's size to the free lists, merges included |
| Bins.BuddyUpStops | lib/allocator/src/bin.rs:41-46 | at the last bin, or when the buddy is not free, the block is pushed onto its bin and nothing else changes |
| Bins.BuddyUpMerges | lib/allocator/src/bin.rs:41-54 | when the buddy is free it is removed and the lower of the pair, aligned for the bin above, is returned to that bin |
| Bins.BinAllocator.Empty | lib/allocator/src/bin.rs:33 | `new` starts from twenty empty bins, which satisfy the allocator's invariant |
| Bins.BinAllocator.New | lib/allocator/src/bin.rs:32-37 | as written, `new` yields an allocator exactly when `allocate_bins` from the top bin does not panic; the bins then hold the carved blocks, aligned to their bins, and the free bytes are those blocks' bytes |
| Bins.BinAllocator.AllocateBins | lib/allocator/src/bin.rs:103-125 | the recursion as written reports a panic exactly when `CarveAsWritten` does, that is when it computes `bin - 1` at bin 0; otherwise it pushes exactly the blocks `Carve` specifies, in its order |
| Bins.BinAllocator.PushRun | lib/allocator/src/bin.rs:116-121 | the refill loop pushes exactly the blocks `Run` specifies |
| Bins.BinAllocator.BuddyDown | lib/allocator/src/bin.rs:57-75 | the result and bins are those `BuddyDownStep` specifies |
| Bins.BinAllocator.BuddyUp | lib/allocator/src/bin.rs:39-55 | the bins are those `BuddyUpStep` specifies |
| Bins.BinAllocator.Alloc | lib/allocator/src/bin.rs:129-132 | `alloc` runs `buddy_down` on the size's bin and returns its block, or null (0) when there is none |
| Bins.BinAllocator.Dealloc | lib/allocator/src/bin.rs:134-137 | `dealloc` runs `buddy_up` on the size's bin |
| Align.PowerOfTwoIff | kern/src/allocator/util.rs:33-49 | a number with exactly one bit set is exactly a power `2^k` |
| Align.PowerOfTwoPow2 | kern/src/allocator/util.rs:33-49 | every `2^k` has exactly one bit set |
| Align.OddMultiple | kern/src/allocator/util.rs:48 | `2^i * q` with `q` odd has one bit set exactly when `q` is 1 |
| Align.LowBitsStep | kern/src/allocator/util.rs:41-46 | a bit the scan passes as clear joins the clear low bits |
| Align.NoMultipleBelow | kern/src/allocator/util.rs:38-46 | no positive 64-bit value is a multiple of 2^64, so one of its 64 bits is set and the bit scan stops |
| Align.LowestBitSplit | kern/src/allocator/util.rs:41-48 | a value whose lowest set bit is `i` is `2^i` times an odd number, and equals `2^i` exactly when that number is 1 |
| Align.IsPowerOfTwo | kern/src/allocator/util.rs:33-49 | the bit scan answers true exactly for the powers of two |
| Align.AlignDown | kern/src/allocator/util.rs:8-14 | `align_down` is a multiple of the alignment at or below the address, less than one alignment below it |
| Align.PowerOfTwoPositive | kern/src/allocator/util.rs:33-36 | a power of two is at least 1 |
| Align.FloorMultiple | kern/src/allocator/util.rs:13 | `addr / align * align` is the multiple just at or below `addr` |
| Align.AlignUp | kern/src/allocator/util.rs:24-31 | `align_up` is a multiple of the alignment at or above the address, less than one alignment above it |
| Align.NextMultiple | kern/src/allocator/util.rs:29 | one alignment above a multiple is a multiple |
| Align.AlignedFixed | kern/src/allocator/util.rs:8-31 | both functions leave an address unchanged exactly when it is aligned, and both are idempotent |
| Align.AlignDownFixed | kern/src/allocator/util.rs:8-14 | `align_down` leaves exactly the aligned addresses unchanged |
| Align.AlignUpFixed | kern/src/allocator/util.rs:24-31 | `align_up` leaves exactly the aligned addresses unchanged |
| Align.AlignExtreme | kern/src/allocator/util.rs:8-31 | `align_up` is the least aligned address at or above the address and `align_down` the greatest at or below |
| Align.DiffMultiple | kern/src/allocator/util.rs:13 | the distance between two aligned addresses is a multiple of the alignment |
| Align.AlignedApart | kern/src/allocator/util.rs:13 | two distinct aligned addresses are at least one alignment apart |
| PageEntry.EmptyEntry | kernel/src/memory/entry.rs:16-18 | `empty` is not valid, not copy-on-write and maps address 0 |
| PageEntry.Address | kernel/src/memory/entry.rs:29-31 | `address` is the ADDR field shifted left by `PAGE_ALIGN`: page aligned, and the field is recovered by dividing |
| PageEntry.Permissions | kernel/src/memory/entry.rs:33-43 | `permissions` answers exactly for the user AP encodings paired with an XN value, and panics for any other pair |
| PageEntry.PermissionsRoundTrip | kernel/src/memory/entry.rs:33-63 | `set_permissions(p)` then `permissions()` gives `p` |
| PageEntry.WithPermissionsFields | kernel/src/memory/entry.rs:45-63 | AP is USER_RW exactly for RW and RWX and USER_RO otherwise; XN is Ex exactly for RWX and RX; no other field changes |
| PageEntry.PermissionsRestore | kernel/src/memory/entry.rs:33-63 | setting an entry's own readable permissions back leaves it unchanged |
| PageEntry.EmptyHasNoPermissions | kernel/src/memory/entry.rs:16-43 | asking an empty entry for its permissions panics, since AP 0 is the kernel encoding |
| PageEntry.CowRoundTrip | kernel/src/memory/entry.rs:45-74 | `set_cow(c)` then `is_cow()` gives `c` and touches no other field; setting permissions keeps the mark; neither setter moves the address |
| PageEntry.AddressInjective | kernel/src/memory/entry.rs:29-31 | entries with the same address have the same ADDR field |
| PageEntry.L3Entry.Empty | kernel/src/memory/entry.rs:16-18 | the wrapper of the empty descriptor |
| PageEntry.L3Entry.FromRaw | kernel/src/memory/entry.rs:77-87 | `From<u64>` and `From<RawL3Entry>` wrap the descriptor unchanged |
| PageEntry.L3Entry.SetPermissions | kernel/src/memory/entry.rs:45-63 | the descriptor becomes `WithPermissions` of the old one, whose permissions read back as set |
| PageEntry.L3Entry.SetCow | kernel/src/memory/entry.rs:65-70 | the descriptor becomes `WithCow` of the old one, whose mark reads back as set |
| Syndrome.FaultStatusCodeRoundTrip | kernel/src/traps/syndrome.rs:66-103 | every named fault status code decodes from exactly its six-bit encoding, only bits 5..0 of the value matter, and an unknown code carries those six bits |
| Syndrome.FaultFromFixedGroupsStatusCodes | kernel/src/traps/syndrome.rs:16-28 | with binary literals, `Fault::from` of a six-bit code is the group of the fault status code it decodes to |
| Syndrome.FaultFromMissesAlignment | kernel/src/traps/syndrome.rs:23-24 | as written, codes 0x21 and 0x30 (alignment and TLB conflict) fall through to Other, because the arms are the decimal numbers 100001 and 110000; with binary literals they give Alignment and TlbConflict |
| Syndrome.ExceptionClass | kernel/src/traps/syndrome.rs:148 | `esr >> 26` is a six-bit exception class |
| Syndrome.InstructionSyndrome | kernel/src/traps/syndrome.rs:149 | `esr & ((1 << 25) - 1)` is below 2^25 |
| Syndrome.EsrFields | kernel/src/traps/syndrome.rs:148-149 | the two extractors recover the class and the syndrome of a register laid out as class, length bit and syndrome |
| Syndrome.SyndromePayloads | kernel/src/traps/syndrome.rs:144-173 | an SVC carries the low 16 bits of the syndrome, instruction and data aborts carry the decoded abort data, BRK the low 16 bits of the register, and exactly the unnamed classes give Other with the whole register |
| Syndrome.AbortDataFields | kernel/src/traps/syndrome.rs:111-118 | the write flag is bit 6 of the syndrome and the fault status code is decoded from bits 5..0 |
| KernelApi.FromCodeInvertsCode | lib/kernel_api/src/lib.rs:12-59 | as written, decoding a variant's discriminant gives it back for every variant but IoErrorTimedOut, and a code that decodes to a named variant is its discriminant |
| KernelApi.TimedOutIsLost | lib/kernel_api/src/lib.rs:29-59 | IoErrorTimedOut is 105, and 105 decodes to Unknown |
| KernelApi.FromCodeFixedInvertsCode | lib/kernel_api/src/lib.rs:12-59 | with the arm for 105 added, code and decoding are inverse on every variant, and exactly the codes no named variant uses decode to Unknown |
| KernelApi.FromIoErrorRange | lib/kernel_api/src/lib.rs:61-72 | every I/O error becomes an I/O code or NoEntry; exactly UnexpectedEof, InvalidData, InvalidInput, TimedOut and NotFound avoid the generic IoError |
| KernelApi.SyscallFromInvertsNumber | lib/kernel_api/src/lib.rs:74-100 | numbers 0 to 7 name the eight calls and decode back to themselves, and exactly the numbers from 8 on decode to Unknown |
| Interrupt.FromIrqInvertsNumber | lib/pi/src/interrupt.rs:8-51 | `From<usize>` accepts each interrupt's number and gives the interrupt back, and every number it accepts is that interrupt's number |
| Interrupt.AllListsEachOnce | lib/pi/src/interrupt.rs:21-28 | `iter` yields `MAX` interrupts, every one of them, in increasing IRQ order and so each once |
| Interrupt.Register | lib/pi/src/interrupt.rs:30-33 | `register` picks one of the two 32-bit registers and a mask with a single bit set |
| Interrupt.RegisterLocates | lib/pi/src/interrupt.rs:30-33 | index × 32 + bit position is the IRQ number, so distinct interrupts get distinct register bits |
| Resources.FindFrom | kernel/src/process/resource.rs:38-109 | the `filter_map(..).next()` searches return the first position meeting their test, and nothing exactly when no position does |
| Resources.FindFromFirst | kernel/src/process/resource.rs:38-109 | a position before which nothing meets the test, and where the test holds, is the one found |
| Resources.InsertAt | kernel/src/process/resource.rs:46-81 | `Vec::insert` puts the entry at the position and shifts the later entries up by one |
| Resources.IdAtLeastIndex | kernel/src/process/resource.rs:37-52 | in a table whose ids increase, the id at position `i` is at least `i`, which is why `insert` looks for the first id that is not its position |
| Resources.InsertAtOrdered | kernel/src/process/resource.rs:46-81 | an entry placed between a smaller and a larger id keeps the ids increasing |
| Resources.RemoveAtOrdered | kernel/src/process/resource.rs:96 | `Vec::remove` keeps the ids increasing, frees that id and keeps every other id |
| Resources.InsertIndexAsWritten | kernel/src/process/resource.rs:38-45 | `insert`'s position as written lies within the list |
| Resources.InsertedAsWritten | kernel/src/process/resource.rs:37-52 | `insert` as written puts the resource at the position under the id equal to that position |
| Resources.InsertIndex | kernel/src/process/resource.rs:38-45 | the corrected position, the end of the list when every id equals its position, lies within the list |
| Resources.Inserted | kernel/src/process/resource.rs:37-52 | the corrected `insert` puts the resource at the position under the id equal to it |
| Resources.InsertedFresh | kernel/src/process/resource.rs:37-52 | on a table in id order, the corrected `insert` hands out the least id not in use, keeps the order, and the resource is then found under that id, whose removal gives back the table |
| Resources.InsertAtFound | kernel/src/process/resource.rs:46-110 | an entry inserted where no earlier entry has its id is what a lookup of the id finds and what removing the id takes out |
| Resources.InsertedAsWrittenAgrees | kernel/src/process/resource.rs:37-52 | when the table has a gap, or is empty, the source's `insert` is the corrected one |
| Resources.InsertAsWrittenReusesId | kernel/src/process/resource.rs:37-52 | as written, on a table holding only id 0, `insert` hands out id 0 again and puts the ids out of order |
| Resources.InsertedWithIdAsWritten | kernel/src/process/resource.rs:54-86 | `insert_with_id` as written refuses only an id in use, and otherwise adds exactly one entry, the requested one |
| Resources.InsertedWithId | kernel/src/process/resource.rs:54-86 | the corrected `insert_with_id` adds exactly one entry, the requested one, when it succeeds |
| Resources.InsertedWithIdSpec | kernel/src/process/resource.rs:54-86 | on a table in id order, the corrected `insert_with_id` fails with UnknownResourceId exactly for an id in use; otherwise the table stays ordered, the resource is found under its id, and removing it gives back the table |
| Resources.InsertWithIdAsWrittenBreaksOrder | kernel/src/process/resource.rs:55-62 | as written, inserting id 1 next to id 1 succeeds with a duplicate, and id 5 goes in front of id 0; the corrected version refuses the first and appends the second |
| Resources.Removed | kernel/src/process/resource.rs:88-100 | `remove` fails with UnknownResourceId exactly when no entry has the id, and otherwise drops one entry |
| Resources.RemovedSpec | kernel/src/process/resource.rs:88-100 | on a table in id order, `remove` keeps the order, frees the id and keeps every other id |
| Resources.LookupAsWritten | kernel/src/process/resource.rs:102-110 | as written, `get` succeeds exactly when some entry has a different id |
| Resources.Lookup | kernel/src/process/resource.rs:102-110 | the corrected `get` succeeds exactly when the id is in use, and returns a resource stored under that id |
| Resources.LookupAsWrittenInverted | kernel/src/process/resource.rs:102-110 | as written, `get(0)` on a table holding only id 0 fails, `get(0)` with ids 0 and 1 returns id 1's resource, and `get(3)` returns id 0's; the corrected `get` does the opposite |
| Resources.ResourceList.constructor | kernel/src/process/resource.rs:31-35 | `new` is the empty table |
| Resources.ResourceList.Insert | kernel/src/process/resource.rs:37-52 | the scan and insertion give the id and table `Inserted` specifies |
| Resources.ResourceList.InsertWithId | kernel/src/process/resource.rs:54-86 | the result and table are those `InsertedWithId` specifies, and a refusal leaves the table unchanged |
| Resources.ResourceList.Remove | kernel/src/process/resource.rs:88-100 | the result and table are those `Removed` specifies, and a failure leaves the table unchanged |
| Resources.ResourceList.Get | kernel/src/process/resource.rs:102-110 | the result is the one `Lookup` specifies |
| Resources.ResourceList.FindIndex | kernel/src/process/resource.rs:89-90 | the scan returns the first position with the id, or the length when there is none |
| Pipes.Pipe.constructor | kernel/src/process/pipe.rs:15-24 | a new pipe holds no bytes |
| Pipes.ReadOut | kernel/src/process/pipe.rs:52-57 | a read hands out the smaller of the pipe's length and the buffer's length, from the front, and what it hands out followed by what stays is the pipe's content |
| Pipes.RunIsFifo | kernel/src/process/pipe.rs:47-75 | first in, first out: over any sequence of writes and reads, what the reads get followed by what is left is the initial content followed by everything written |
| Pipes.ReadsArePrefix | kernel/src/process/pipe.rs:47-75 | starting from an empty pipe, what the reads get is a prefix of everything written |
| Pipes.NewPair | kernel/src/process/pipe.rs:23-28 | `new_pair` gives a writer and a reader sharing one fresh, empty pipe |
| Pipes.Duplicate | kernel/src/process/pipe.rs:36-43 | `duplicate` always succeeds with the same kind of end over the same pipe |
| Pipes.Read | kernel/src/process/pipe.rs:47-60 | a writer end fails with Unsupported and changes nothing; a reader end copies what `ReadOut` hands out into the front of the buffer, leaves the rest of the buffer, reports the count and keeps what stays |
| Pipes.Write | kernel/src/process/pipe.rs:64-75 | a writer end appends the whole buffer and reports its length; a reader end fails with Unsupported and changes nothing |
| Pipes.Seek | kernel/src/process/pipe.rs:82-86 | `seek` always fails with Unsupported |
| Pipes.WriteThenRead | kernel/src/process/pipe.rs:23-75 | bytes written at the writer of a new pair are read at the reader, in order, as many as the read has room for |
| Processes.NewProcess | kernel/src/process/process.rs:64-74 | `Process::new` is ready, has no parent, no dead children and a zeroed trap frame, so id 0 |
| Processes.CanRun | kernel/src/process/process.rs:150-164 | `can_run` answers true exactly when the process ends up ready; it changes only the state, and only from waiting to ready when the awaited event has arrived |
| Processes.Fields | kernel/src/process/process.rs:333-348 | the NUL-separated fields of the bytes: always at least one |
| Processes.FieldsSnoc | kernel/src/process/process.rs:336-341 | a NUL appended opens a new empty field; any other byte extends the last field |
| Processes.FieldsJoin | kernel/src/process/process.rs:333-348 | joining the fields back with NULs gives the bytes again |
| Processes.NoNulExtend | kernel/src/process/process.rs:336-341 | one scan step keeps every field free of NULs |
| Processes.FieldsNoNul | kernel/src/process/process.rs:333-348 | no field holds a NUL |
| Processes.FieldsCount | kernel/src/process/process.rs:333-348 | there is one field more than there are NULs, and the last one is empty exactly when the bytes are empty or end in a NUL |
| Processes.SegmentsSpec | kernel/src/process/process.rs:333-348 | `parse_execute` yields one argument per NUL, and one more when the bytes end in some other byte; no argument holds a NUL, and joining the arguments with NULs (plus the final NUL when there was one) gives back the bytes |
| Processes.SegmentsExample | kernel/src/process/process.rs:333-348 | two NULs give two empty arguments; a byte without a NUL gives one argument |
| Processes.ParseStep | kernel/src/process/process.rs:336-341 | one iteration of the scan keeps the arguments so far and the open one equal to the fields of the bytes read |
| Processes.ParseExecute | kernel/src/process/process.rs:333-348 | the loop computes exactly the arguments `Segments` specifies |
| Processes.Ids | kernel/src/process/scheduler.rs:306-308 | the queue's ids, one per process, in order |
| Processes.FindId | kernel/src/process/scheduler.rs:242-308 | the first process whose trap frame carries the id, and none exactly when no process has it |
| Processes.FirstRunnable | kernel/src/process/scheduler.rs:263-270 | the first process that can run, with none before it, and none exactly when no process can run |
| Processes.FindIdAt | kernel/src/process/scheduler.rs:242-253 | a scan that stops at a position stops where `FindId` does |
| Processes.FirstRunnableAt | kernel/src/process/scheduler.rs:263-270 | a scan that stops at a position stops where `FirstRunnable` does |
| Processes.RemoveOneIds | kernel/src/process/scheduler.rs:246-275 | removing one process takes exactly its id out of the queue's ids |
| Processes.MoveToBackSpec | kernel/src/process/scheduler.rs:241-254 | scheduling out keeps the same processes by id, puts the found one last with the new state and saved frame, and keeps the others in order |
| Processes.PromoteSpec | kernel/src/process/scheduler.rs:263-283 | switching to keeps the same processes by id, puts the chosen one first as running, and keeps the others in order |
| Scheduling.NextPid | kernel/src/process/scheduler.rs:220-232 | `new_pid` hands out 0 first and then one more than the last id; it fails exactly when the last id is `u64::MAX`, and then leaves the last id as it was |
| Scheduling.PidRun | kernel/src/process/scheduler.rs:220-232 | the answers of that many calls to `new_pid` in a row |
| Scheduling.PidRunAfter | kernel/src/process/scheduler.rs:220-232 | after id `k`, the next calls hand out `k + 1`, `k + 2`, ... while they stay within `u64` |
| Scheduling.PidsIncrease | kernel/src/process/scheduler.rs:220-232 | a fresh scheduler hands out 0, 1, 2, ..., so ids strictly increase and no id is handed out twice |
| Scheduling.PidsExhausted | kernel/src/process/scheduler.rs:223-226 | once the last id is `u64::MAX`, every further call fails |
| Scheduling.ScheduleOutSpec | kernel/src/process/scheduler.rs:241-254 | `schedule_out` answers false exactly when no queued process has the frame's id, and then changes nothing; it keeps the same processes by id, and on success the last one carries the saved frame and the new state |
| Scheduling.SwitchToSpec | kernel/src/process/scheduler.rs:263-283 | `switch_to` answers `None` exactly when no process can run, and then changes nothing; it keeps the same processes by id, and on success the first process is running, has the returned id and its frame is restored into `tf` |
| Scheduling.RecordDeadChild | kernel/src/process/scheduler.rs:295-299 | telling the parent keeps the queue's length and ids |
| Scheduling.KillCurrent | kernel/src/process/scheduler.rs:289-302 | killing the running process returns its id, removes exactly it and keeps the other processes in order |
| Scheduling.KillWithoutCurrent | kernel/src/process/scheduler.rs:289-302 | when no queued process has the frame's id, `kill` takes the back process instead, and on an empty queue returns `None` |
| Scheduling.RecordDeadChildSpec | kernel/src/process/scheduler.rs:295-299 | the first process with the parent's id gets the child's id appended to its dead children, and no other process changes |
| Scheduling.Scheduler.constructor | kernel/src/process/scheduler.rs:185-190 | `Scheduler::new` has an empty queue and no last id |
| Scheduling.Scheduler.NewPid | kernel/src/process/scheduler.rs:220-232 | the id and the new last id are those `NextPid` gives; the queue is unchanged |
| Scheduling.Scheduler.Add | kernel/src/process/scheduler.rs:199-207 | `add` gives the process the next id and appends it at the back; when ids are exhausted it returns `None` and the queue is unchanged |
| Scheduling.Scheduler.ScheduleOut | kernel/src/process/scheduler.rs:241-254 | the loop's answer and queue are those `ScheduleOutStep` gives |
| Scheduling.Scheduler.SwitchTo | kernel/src/process/scheduler.rs:263-283 | the loop's answer, queue and restored frame are those `SwitchToStep` gives |
| Scheduling.Scheduler.Kill | kernel/src/process/scheduler.rs:289-302 | the answer and queue are those `KillStep` gives |
| Scheduling.Scheduler.FindProcess | kernel/src/process/scheduler.rs:306-308 | the scan finds the first process with the id, as `FindId` does |
| RoundRobin.ScheduledOut | kernel/src/scheduling/round_robin.rs:28-49 | `schedule_out` fails with ProcessNotFound exactly when no queued process has the frame's id; otherwise it keeps the same processes by id and the last one carries the saved frame and the new state |
| RoundRobin.ScheduledIn | kernel/src/scheduling/round_robin.rs:124-138 | `schedule_in` fails with NoRunnableProcess exactly when no process can run, and then changes nothing; it keeps the same processes by id, and on success the first is running, has the returned id and its frame is restored |
| RoundRobin.NotifyParentAsWritten | kernel/src/scheduling/round_robin.rs:110-115 | as written, every process with the parent's id appends its own id to its dead children, and nothing else changes |
| RoundRobin.NotifyParent | kernel/src/scheduling/round_robin.rs:110-115 | as intended, every process with the parent's id appends the dead child's id, and nothing else changes |
| RoundRobin.NotifyParentAsWrittenLosesChild | kernel/src/scheduling/round_robin.rs:110-115 | as written, a parent with id 1 whose child 2 dies records 1, where the corrected notification records 2 |
| RoundRobin.NotifyParentAgrees | kernel/src/scheduling/round_robin.rs:110-115 | the notification as written agrees with the intended one exactly when the child's id is the parent's or the parent is not queued |
| RoundRobin.SwitchSpec | kernel/src/scheduling/round_robin.rs:94-122 | a yield changes nothing; a forced or timer switch fails with ProcessNotFound, changing nothing, when the frame's id is not queued; otherwise it keeps the same processes by id, less exactly the current one when it dies |
| RoundRobin.SwitchDeadTellsParent | kernel/src/scheduling/round_robin.rs:101-116 | as written, when the current process dies, each queued process with its parent's id records its own id, not the dead child's, among its dead children |
| RoundRobin.SwitchDeadTellsParentFixed | kernel/src/scheduling/round_robin.rs:101-116 | corrected: with the burial as intended, each queued process with the dying process's parent id records the dead child's id |
| RoundRobin.RemovedSpec | kernel/src/scheduling/round_robin.rs:86-92 | `remove` takes exactly the current process off the queue and, when another can run, returns it, ready |
| RoundRobin.OnProcessStep | kernel/src/scheduling/round_robin.rs:140-155 | `on_process` fails with ProcessNotFound exactly when no process has the frame's id, and then changes nothing; it keeps the queue's length |
| RoundRobin.RoundRobinScheduler.constructor | kernel/src/scheduling/round_robin.rs:53-60 | `new` has an empty queue |
| RoundRobin.RoundRobinScheduler.Add | kernel/src/scheduling/round_robin.rs:81-84 | `add` appends the process at the back and succeeds |
| RoundRobin.RoundRobinScheduler.ScheduleOut | kernel/src/scheduling/round_robin.rs:28-49 | the search and update give the queue `ScheduledOut` specifies, and a failure leaves the queue unchanged |
| RoundRobin.RoundRobinScheduler.ScheduleIn | kernel/src/scheduling/round_robin.rs:124-138 | the search and update give the answer, queue and frame `ScheduledIn` specifies |
| RoundRobin.RoundRobinScheduler.TellParent | kernel/src/scheduling/round_robin.rs:110-115 | the loop over the processes gives the queue `NotifyParentAsWritten` specifies: each process with the parent's id pushes its own id |
| RoundRobin.RoundRobinScheduler.Switch | kernel/src/scheduling/round_robin.rs:94-122 | the answer, queue and frame are those `Switched` specifies, burying a dead process as written |
| RoundRobin.RoundRobinScheduler.BuryLast | kernel/src/scheduling/round_robin.rs:105-115 | the dead process leaves the back of the queue and its parent is told as written (`Bury`, over `NotifyParentAsWritten`) |
| RoundRobin.RoundRobinScheduler.PopLast | kernel/src/scheduling/round_robin.rs:88-108 | `pop_back` returns the back process and removes it |
| RoundRobin.RoundRobinScheduler.Remove | kernel/src/scheduling/round_robin.rs:86-92 | the answer, queue and frame are those `Removed` specifies |
| RoundRobin.RoundRobinScheduler.OnProcess | kernel/src/scheduling/round_robin.rs:140-155 | the answer, queue and frame are those `OnProcessStep` specifies |
| RoundRobinPolicies.IndexOf | kernel/src/scheduling/round_robin_policy.rs:27-29 | `index_of_process_id` gives the first position of the id, and none exactly when the id is not queued |
| RoundRobinPolicies.IndexOfAt | kernel/src/scheduling/round_robin_policy.rs:27-29 | a scan that stops at a position stops where `IndexOf` does |
| RoundRobinPolicies.Without | kernel/src/scheduling/round_robin_policy.rs:37-41 | `remove` takes out one copy of the id when it is queued, and otherwise leaves the queue as it is |
| RoundRobinPolicies.ToBack | kernel/src/scheduling/round_robin_policy.rs:64-67 | the closing step of `inform` keeps the queued ids, with a queued id moved to the back |
| RoundRobinPolicies.DistinctWithout | kernel/src/scheduling/round_robin_policy.rs:37-41 | removing an id from a queue without repeats keeps it without repeats and leaves no copy of the id |
| RoundRobinPolicies.DistinctAppend | kernel/src/scheduling/round_robin_policy.rs:49 | appending an id that is not queued keeps the queue without repeats |
| RoundRobinPolicies.InformedSpec | kernel/src/scheduling/round_robin_policy.rs:43-68 | on a queue without repeats, scheduling out an unqueued process appends it once and records it as waiting when it waits; starting a queued one takes it out; an end of waiting drops it from the waiting set and, when it is queued, moves it from its place to the back, leaving an unqueued id's queue unchanged; each keeps the queue without repeats |
| RoundRobinPolicies.ScheduledOutTwiceRepeats | kernel/src/scheduling/round_robin_policy.rs:45-50 | scheduling out a process that is still queued adds a second copy of its id |
| RoundRobinPolicies.Advised | kernel/src/scheduling/round_robin_policy.rs:70-79 | `advise` gives nothing exactly when every queued id is waiting; otherwise it gives the first queued id that is not waiting, for one quantum, stopped only by a yield |
| RoundRobinPolicies.RoundRobinPolicy.constructor | kernel/src/scheduling/round_robin_policy.rs:19-25 | `new` keeps the quantum, with an empty queue and no waiting ids |
| RoundRobinPolicies.RoundRobinPolicy.IndexOfProcessId | kernel/src/scheduling/round_robin_policy.rs:27-29 | the scan gives the position `IndexOf` specifies |
| RoundRobinPolicies.RoundRobinPolicy.Insert | kernel/src/scheduling/round_robin_policy.rs:33-35 | `insert` puts the id at the front of the queue |
| RoundRobinPolicies.RoundRobinPolicy.Remove | kernel/src/scheduling/round_robin_policy.rs:37-41 | the queue becomes `Without` the id and the waiting set is unchanged |
| RoundRobinPolicies.RoundRobinPolicy.MoveToBack | kernel/src/scheduling/round_robin_policy.rs:64-67 | the queue becomes `ToBack` of the id and the waiting set is unchanged |
| RoundRobinPolicies.RoundRobinPolicy.Inform | kernel/src/scheduling/round_robin_policy.rs:43-68 | the queue and waiting set become those `Informed` specifies |
| RoundRobinPolicies.RoundRobinPolicy.Advise | kernel/src/scheduling/round_robin_policy.rs:70-79 | the scan gives the advice `Advised` specifies |
| FairPolicies.MinIndex | kernel/src/scheduling/fair_policy.rs:148-152 | the first heap entry of least runtime, the order `ProcessInformation` compares by |
| FairPolicies.MaxIndex | kernel/src/scheduling/fair_policy.rs:14-152 | the first heap entry of greatest runtime, the top of a max-heap under that order |
| FairPolicies.AdviseAsWrittenPrefersLongestRun | kernel/src/scheduling/fair_policy.rs:14-152 | as written, with one process that has not run and one that ran 10, `advise` names the one that ran, for half the latency; with the intended top it names the one that has not run |
| FairPolicies.RemoveAt | kernel/src/scheduling/fair_policy.rs:89-100 | taking an entry off the heap drops exactly that entry |
| FairPolicies.PidIndex | kernel/src/scheduling/fair_policy.rs:92-98 | the `position` search finds the first entry of the process, and none exactly when it has no entry |
| FairPolicies.MinDuration | kernel/src/scheduling/fair_policy.rs:34-40 | `min_duration` is zero on an empty heap, and otherwise a runtime on the heap no greater than any other |
| FairPolicies.RecommendedRuntime | kernel/src/scheduling/fair_policy.rs:42-51 | `recommended_runtime` is at least the minimum granularity; otherwise it shares the latency evenly among the heap's entries, rounded down |
| FairPolicies.InsertedRunsLeast | kernel/src/scheduling/fair_policy.rs:55-60 | a process inserted into a non-empty heap enters at the least runtime so far, which it does not change |
| FairPolicies.StartIndex | kernel/src/scheduling/fair_policy.rs:87-102 | `inform(StartRunning)` takes off the heap an entry of that process |
| FairPolicies.InformedSpec | kernel/src/scheduling/fair_policy.rs:66-106 | scheduling out moves the accumulated runtime from the running table to the waiting table or the heap; the end of a wait moves it from the waiting table to the heap; starting moves one entry of the process from the heap to the running table; when the process is on top that entry has, as written, the greatest runtime on the heap and, as intended, the least; removal marks never change |
| FairPolicies.RunThenRequeue | kernel/src/scheduling/fair_policy.rs:66-106 | a process started and then scheduled out without waiting returns to the heap once, with its old runtime plus the time it ran, and the other tables are as before |
| FairPolicies.MultisetSwap | kernel/src/scheduling/fair_policy.rs:87-104 | taking one entry out and putting one in composes |
| FairPolicies.PurgedSpec | kernel/src/scheduling/fair_policy.rs:109-116 | the loop of `advise` drops only entries of marked processes and unmarks only those; it stops at an empty heap or an unmarked top, for either choice of top |
| FairPolicies.AdvisedSpec | kernel/src/scheduling/fair_policy.rs:108-125 | `advise` changes neither the waiting nor the running table; it names an unmarked process that, as written, has run no shorter than any other left on the heap and, as intended, no longer, for the recommended runtime, stopped by the timer or a yield; it names none only when every entry was marked |
| FairPolicies.FairPolicy.constructor | kernel/src/scheduling/fair_policy.rs:23-32 | `new` keeps the latency and granularity, with empty tables; `leastOnTop` false gives the source's max-heap |
| FairPolicies.FairPolicy.TopIndex | kernel/src/scheduling/fair_policy.rs:34-119 | the scan finds the entry `Top` specifies: the first of least runtime for `min_duration`, and for `peek` the one the heap's order puts on top |
| FairPolicies.FairPolicy.Position | kernel/src/scheduling/fair_policy.rs:92-98 | the `position` scan finds the first entry of the process, the one `PidIndex` specifies |
| FairPolicies.FairPolicy.Insert | kernel/src/scheduling/fair_policy.rs:55-60 | the tables become those `Inserted` specifies |
| FairPolicies.FairPolicy.Remove | kernel/src/scheduling/fair_policy.rs:62-64 | `remove` only marks the process |
| FairPolicies.FairPolicy.Inform | kernel/src/scheduling/fair_policy.rs:66-106 | the tables become those `Informed` specifies, with the policy's choice of top |
| FairPolicies.FairPolicy.Advise | kernel/src/scheduling/fair_policy.rs:108-125 | the tables and advice are those `Advised` specifies, with the policy's choice of top |
| Shells.Split | kern/src/shell.rs:45 | `split(' ')` always gives at least one piece |
| Shells.NonEmpty | kern/src/shell.rs:45 | the filter keeps only non-empty pieces, taken from the input, never more of them |
| Shells.NonEmptyAppend | kern/src/shell.rs:45 | the filter works piece by piece: filtering two runs of pieces is filtering each |
| Shells.NonEmptyKeeps | kern/src/shell.rs:45 | the filter keeps pieces that are all non-empty as they are |
| Shells.JoinSnoc | kern/src/shell.rs:45 | joining one more piece adds a space and the piece |
| Shells.JoinExtendLast | kern/src/shell.rs:45 | one more character on the last piece is one more character on the joined line |
| Shells.JoinSplit | kern/src/shell.rs:45 | joining the pieces of a line with single spaces gives the line back |
| Shells.SplitHasNoSpaces | kern/src/shell.rs:45 | no piece holds a space |
| Shells.SplitWord | kern/src/shell.rs:45 | a line without spaces is a single piece |
| Shells.SplitSpaceWord | kern/src/shell.rs:45 | a space followed by a space-free word adds exactly that piece |
| Shells.SplitJoin | kern/src/shell.rs:45 | splitting space-free words joined with spaces gives the words back |
| Shells.ParsedSpec | kern/src/shell.rs:36-54 | `Command::parse` succeeds exactly when the line has between one and `capacity` arguments, fails with Empty exactly when it has none (and with TooManyArgs otherwise); the arguments are non-empty and space-free, and parsing them joined with single spaces gives the same command |
| Shells.WordsNow | kern/src/shell.rs:45-47 | the arguments of a line are those completed by a space plus the piece still being read, when non-empty |
| Shells.Step | kern/src/shell.rs:45-47 | one more character: a space completes the current piece, any other extends it |
| Shells.CompletedAtMost | kern/src/shell.rs:45-47 | the arguments pushed so far never outnumber those of the whole line, so the buffer overflows only when the line has too many |
| Shells.Parse | kern/src/shell.rs:43-54 | the loop pushing each argument into a buffer of `capacity` gives exactly what `Parsed` specifies |
| Shells.Path | kern/src/shell.rs:56-59 | the path is one of the command's arguments, its first |
| Shells.Dispatch | kern/src/shell.rs:126-150 | `run_command` exits exactly on `exit`, changes directory exactly on `cd`, and reports an unknown command exactly when the path is none of the six it knows |
| Shells.Shell.constructor | kern/src/shell.rs:69-75 | `Shell::new` keeps the prefix, starts at `/` and is open |
| Shells.Shell.Exit | kern/src/shell.rs:246-248 | `exit` closes the shell and keeps the working directory |
| Shells.Shell.RunCommand | kern/src/shell.rs:126-248 | the shell closes exactly on `exit`; the working directory changes only on `cd` with an argument whose pushed path opens as a directory, and then becomes that directory |
| Shells.ExitLineCloses | kern/src/shell.rs:77-124 | a line whose only argument is `exit`, with any spacing, closes the shell |
| Elf.ReadIdentityTakesSixteen | lib/elf/src/file.rs:12-16 | `FileHeadIdentity::read` succeeds exactly when the file has 16 bytes to give, and then holds the first 16 |
| Elf.IdentityFieldsDecode | lib/elf/src/file.rs:22-36 | byte 4 decodes to a known width exactly when it is 1 or 2, and byte 5 to a known byte order exactly when it is 1 or 2; each known value is the byte's own ELF identification value |
| Elf.ValidHeaderIsMagic | lib/elf/src/file.rs:6-20 | `is_valid_header` holds for the magic 7F 'E' 'L' 'F' followed by any 12 bytes, and only when the identity starts with those four bytes |
| Elf.ObjectFileTypeRoundTrip | lib/elf/src/file.rs:40-68 | `ObjectFileType::from` inverts the listed discriminants, and each value it recognises is one of them |
| Elf.TargetMachineIsaFrom | lib/elf/src/file.rs:71-83 | `TargetMachineIsa::from` gives Aarch64 exactly for 0xB7 |

## Left out

- Boot code, assembly, MMIO drivers, locks, trap and IRQ dispatch, system-call glue, page tables and the VFS and mount layers are not part of this model. The model covers only the files listed above.
- lib/fat32/src/traits, lib/allocator/src/linked_list.rs and the aarch64 crate are not part of this model. Bins' free lists are sequences whose `push` prepends and whose `remove` drops the first equal node.
- Concurrency: `Mutex`, `SpinLock` and `Arc` become plain shared object references (the pipe's two ends share one `Pipe` object). Every operation runs alone.
- Block devices are in-memory `Disk` objects. A buffer of the wrong length is Unsupported and a block past the end is NotFound, as in every device of the repository. Device errors other than those are not modelled.
- Device.ByteDevice: the byte device answers from a script of replies. ReadByte and WriteByte require that a reply other than WouldBlock eventually comes, because the source spins on WouldBlock forever.
- `get_chunk` (lib/filesystem/src/device.rs:145-151) is unused by the rest of the file and is not modelled.
- Vfat.VirtualFat.FatChain requires a chain that ends within the FAT. On a cyclic FAT the source loops forever.
- Vfat.VirtualFat.ReadCluster and the other cluster transfers require a cluster number of at least 2. `sector_start` subtracts 2 from it and would underflow.
- Vfat.VirtualFat.ReadCluster: at an unaligned offset the contract does not state the outcome. Device.StreamRead states it as the plan as written, and Device.AsWrittenUnalignedHalts and Device.AsWrittenUnalignedReadMirrors show that it panics or reads the prefix from the mirrored position.
- Vfat.VirtualFat.WriteCluster: at an unaligned offset the contract does not state the outcome either. Device.StreamWrite states it, and Device.AsWrittenUnalignedHalts shows when it panics.
- Vfat.VirtualFat.Valid and the constructor require `bytes_per_sector` to be a multiple of 4, so that a 4-byte FAT entry never straddles two sectors. Every sector size FAT32 allows (512 to 4096) meets this. On other sizes an entry at the end of a sector would make the source slice past the sector and panic.
- Vfat.LayoutRegions does not state the `sector_start` clause of the geometry. Clusters.SectorRangesDisjoint states it.
- `get_clear_cluster` (lib/vfat/src/virtual_fat.rs:149-159) and the root and format helpers of the volume are not modelled.
- DirEntry: names decode from UTF-16 code units. Lossy UTF-8 decoding is not modelled, and DirEntry.NewLong handles ASCII names only.
- Partition.ReadAfterWrite requires that the device block size divides the logical block size. Otherwise the source leaves the tail of each logical block untransferred, and the lemma does not describe that tail.
- BlockCache: the eviction is selected by `writeBack`, a field fixed when a `CachedBlockDevice` is constructed. With `false` it reproduces the source, which drops the evicted data; with `true` it writes the data back first, the corrected eviction stated by BlockCache.WriteBackKeepsWrite.
- Io: `read_to_end`'s 256-byte scratch buffer is a fresh zeroed array on each call. The generic reader and writer are scripted, which covers every sequence of answers a real one can give.
- Paths.ComponentsStep: stated for the character-indexed iteration `ComponentsFrom`. The source's iteration equals it on ASCII text (Paths.AsWrittenAgreesOnAscii) but not on other text, where its index skips characters and advances by bytes (Paths.AsWrittenLosesNameAfterNonAscii).
- Paths.SplitStep: stated for the character-indexed iteration `ComponentsFrom`. The source's iteration equals it on ASCII text (Paths.AsWrittenAgreesOnAscii) but not on other text, where its index skips characters and advances by bytes (Paths.AsWrittenLosesNameAfterNonAscii).
- Paths.LastSegment: stated for the character-indexed iteration `ComponentsFrom`. The source's iteration equals it on ASCII text (Paths.AsWrittenAgreesOnAscii) but not on other text, where its index skips characters and advances by bytes (Paths.AsWrittenLosesNameAfterNonAscii).
- Paths.ComponentsSplit: stated for the character-indexed iteration `ComponentsFrom`. The source's iteration equals it on ASCII text (Paths.AsWrittenAgreesOnAscii) but not on other text, where its index skips characters and advances by bytes (Paths.AsWrittenLosesNameAfterNonAscii).
- Paths.ComponentsSplitMore: stated for the character-indexed iteration `ComponentsFrom`. The source's iteration equals it on ASCII text (Paths.AsWrittenAgreesOnAscii) but not on other text, where its index skips characters and advances by bytes (Paths.AsWrittenLosesNameAfterNonAscii).
- Paths.ComponentsSplitLast: stated for the character-indexed iteration `ComponentsFrom`. The source's iteration equals it on ASCII text (Paths.AsWrittenAgreesOnAscii) but not on other text, where its index skips characters and advances by bytes (Paths.AsWrittenLosesNameAfterNonAscii).
- Paths.TrailingSlash: stated for the character-indexed iteration `ComponentsFrom`. The source's iteration equals it on ASCII text (Paths.AsWrittenAgreesOnAscii) but not on other text, where its index skips characters and advances by bytes (Paths.AsWrittenLosesNameAfterNonAscii).
- Paths.FileNameOfAppended: the source's `file_name` of the appended path is stated for ASCII text only. On other text the as-written iteration can lose the name: "/é/x" has no file name (Paths.AsWrittenLosesNameAfterNonAscii).
- Paths: texts are sequences of Unicode characters, and `len` is their UTF-8 byte count (Paths.ByteLen). The iterator class, `join`, `simplify` and `file_name` run the byte-indexed iteration as written.
- Align.AlignUp: the `usize` overflow of `aligned_down + align` near the top of the address space is not modelled, because addresses are unbounded naturals.
- PageEntry: the bit positions of the raw descriptor belong to the aarch64 crate, which is not part of this model. The field values are assumed from the AArch64 stage 1 descriptor format: read/write is AP 0b01, read-only is AP 0b11, XN 1 forbids execution, and a clear COW bit means owned. `L3Entry::new` (kernel/src/memory/entry.rs:20-22) has an empty body. `allocate_entry` and `acquire_entry_at` (kernel/src/memory/entry.rs:124-131) are stubs that return Ok. The collection's `Default` and the `Display` and `Debug` formatting are not modelled.
- Interrupt: the `Controller` methods (enable, disable, is_pending, enable_fiq) are register I/O and are not modelled. Their register and bit choice is `Interrupt.Register`.
- Resources: a resource is an opaque handle, not a file object. The `Resources.ResourceList` class uses the corrected searches. The as-written searches are modelled alongside it as functions.
- Processes: the trap frame keeps only `tpidr`, `elr` and `sp`. A process's page table, open resources and working directory are not modelled. So `Process::load`, `do_load`, `open`, `read`, `write`, `pipe`, `duplicate`, `fork`, `execute` and `clone` are left out: they act on the file system and page tables. `parse_execute`'s lossy UTF-8 decoding is not modelled, and arguments stay byte sequences.
- Processes.CanRun: a waiting process's poll closure is modelled as the event it waits for, and the poll as the set of events that have arrived.
- Scheduling: `GlobalScheduler` (the lock wrapper, `start`, the timer setup and `switch`'s `wfe` loop) and `Scheduler::fork` are not modelled. `fork` calls a `Process::fork` with a signature that kernel/src/process/process.rs does not define.
- Scheduling.KillWithoutCurrent: when the frame's id is not queued, `kill` removes the back process, as the code does. No lemma claims that this is the process that was meant.
- Bins.BinAllocator.New: where `allocate_bins` panics the model returns None. The kernel halts there, and the bins it left half filled are not modelled.
- RoundRobin: `setup_core` (timer and IRQ registration) is not modelled. When nothing else can run, `remove` returns NoRunnableProcess after the process has already left the queue, and the model keeps that loss.
- RoundRobinPolicies: the queue may hold an id twice when a process is scheduled out while still queued (RoundRobinPolicies.ScheduledOutTwiceRepeats). RoundRobinPolicies.InformedSpec is stated for the case the scheduler produces, where the id is not queued.
- Policy: `SwitchCondition` is a set of triggers, and durations are whole nanoseconds.
- FairPolicies.RecommendedRuntime: the latency is divided by the heap size as an unbounded natural. The `as u32` truncation of that size and the nanosecond rounding of `Duration` division are not modelled.
- FairPolicies: the heap is a sequence whose order is immaterial. Only its multiset and the entry `peek` gives are modelled, and ties between equal runtimes are resolved to the first entry.
- FairPolicies: the policy's `leastOnTop` field selects the top of the heap. With `false`, the policy runs the source's max-heap, and FairPolicies.AdvisedSpec then states that the advice has run longest. With `true`, it runs the least-runtime top the policy is built for.
- Shells: console input and output, line editing, the 512-byte line buffer, and the output of `echo`, `pwd`, `ls`, `cat` and unknown commands are not modelled. The directory `cd` opens is a parameter, standing for the file system's answer.

## Findings

| source | as written | input that shows it | evidently intended | confidence | as-written member | corrected member |
|---|---|---|---|---|---|---|
| lib/shim/src/no_std/io.rs:191-203 | `Cursor::seek` returns the new position but never stores it | on the bytes 10, 11, seek to `Start(1)` and read one byte: it is 10 | the position becomes the returned target | not executed | Io.Cursor.Seek | Io.Cursor.SeekFixed |
| lib/shim/src/no_std/io.rs:191-203 | the target must be below the length, so `End(0)` is always InvalidInput | `End(0)` on any buffer | seeking to the end (target equal to the length) succeeds | not executed | Io.SeekToEndRejected | Io.SeekTargetFixedToEnd |
| lib/shim/src/no_std/io.rs:135-145 | `read_to_end` appends the whole 256-byte scratch buffer after every read, including the final empty read | an empty stream: 256 zeros appended and 256 reported | only the bytes each read returned are appended | not executed | Io.ReadToEndPadsTo256 | Io.ReadToEndFixedReadsStream |
| lib/kernel_api/src/lib.rs:29-59 | `OsError::from(u64)` has no arm for 105 | code 105 (IoErrorTimedOut) decodes to Unknown | 105 decodes to IoErrorTimedOut | not executed | KernelApi.TimedOutIsLost | KernelApi.FromCodeFixedInvertsCode |
| kernel/src/traps/syndrome.rs:23-24 | two `Fault::from` arms are decimal literals (100001, 110000) that no six-bit code equals | status code 0x21 (alignment) decodes to Other | 0b100001 and 0b110000, giving Alignment and TlbConflict | not executed | Syndrome.FaultFromMissesAlignment | Syndrome.FaultFromFixedGroupsStatusCodes |
| lib/filesystem/src/device.rs:86-107 | `stream_read` skips one block too many at an aligned offset, and mirrors the within-block position or panics at an unaligned one | offset 0 with two blocks: the buffer is filled from block 1 | the transfer starts at the offset's own block and position | not executed | Device.AsWrittenAlignedReadIsShifted | Device.StreamReadFixed |
| lib/filesystem/src/device.rs:114-136 | `stream_write` makes the same block skip | offset 0: the data lands in block 1 | the data lands at the offset | not executed | Device.AsWrittenAlignedWriteIsShifted | Device.StreamWriteFixed |
| lib/filesystem/src/master_boot_record.rs:26-28 | the cylinder ANDs two operands that share no bit | any CHS triple: the cylinder is 0 | OR the high two bits above the cylinder byte, giving a 10-bit cylinder | not executed | Mbr.ChsCylinderIsZero | Mbr.ChsCylinderFixedFields |
| lib/fat32/src/entry.rs:25-30 | `last_modification` is a `u16`, so the record is 30 bytes and the fields after it shift | a record with low cluster 5 and size 0 reads as cluster 0, size 5 | a 4-byte time-and-date word and a 32-byte record | not executed | DirEntry.AsDeclaredMisplacesFields | DirEntry.FixedLayoutOffsets |
| lib/filesystem/src/cache.rs:64-74 | an evicted cache entry is dropped without being written back | one-entry cache: write block 0, read block 1, read block 0: the old contents come back | the evicted entry is written to its block first | not executed | BlockCache.EvictionLosesWrite | BlockCache.WriteBackKeepsWrite |
| lib/filesystem/src/path.rs:134-152 | `next` skips `index` characters to find the segment but advances `index` by the segment's length in UTF-8 bytes and stops at the byte length | "/é/x": the third step starts past the last character and yields Root, so the components are Root, Child("é"), Root and the file name is None | one unit for the index, giving Root, Child("é"), Child("x") | not executed | Paths.AsWrittenLosesNameAfterNonAscii | Paths.ComponentsSplit |
| lib/filesystem/src/path.rs:92-99 | `push_component` appends a child's name with no separator | push Child("y") onto "/x": the path is "/xy" | "/x/y" | not executed | Paths.PushMergesNames | Paths.PushFixedAppends |
| lib/filesystem/src/path.rs:105-120 | `try_from` builds the path with that push | `try_from("/a/b")` is "/ab" | "/a/b" | not executed | Paths.TryFromJoinsNames | Paths.TryFromFixedKeepsSeparators |
| lib/filesystem/src/path.rs:80-86 | `relative_from` returns the prefix it was given | "/mnt/a" relative from "/mnt" is "/mnt" | the rest after the prefix ("/a") | not executed | Paths.RelativeFromIsOther | Paths.RelativeFromFixedRestores |
| lib/allocator/src/bin.rs:103-125 | `allocate_bins` computes `bin - 1` when it reaches bin 0 with a block still to push | refilling the region [8, 16) | stop at bin 0 after pushing its block | not executed | Bins.CarveAsWrittenPanics | Bins.CarveSmallRegion |
| kernel/src/process/resource.rs:37-52 | `insert` falls back to position 0, and so id 0, when every id equals its position | a table holding only id 0 gets a second id 0, placed in front | the next id, appended at the end | not executed | Resources.InsertAsWrittenReusesId | Resources.InsertedFresh |
| kernel/src/process/resource.rs:55-62 | `insert_with_id` inserts before the first entry whose position is at least its stored id, a test that never looks at the requested id | id 1 next to id 1 gives a duplicate; id 5 goes in front of id 0 | refuse an id in use and keep the ids in order | not executed | Resources.InsertWithIdAsWrittenBreaksOrder | Resources.InsertedWithIdSpec |
| kernel/src/process/resource.rs:102-110 | `get`'s search tests `!=` in place of `==` | `get(0)` on a table holding only id 0 fails | return the entry with the id | not executed | Resources.LookupAsWrittenInverted | Resources.Lookup |
| kernel/src/scheduling/round_robin.rs:110-115 | the parent records its own id as the dead child | parent 1 with child 2: the parent records 1 | the parent records the child's id | not executed | RoundRobin.NotifyParentAsWrittenLosesChild | RoundRobin.NotifyParent |
| kernel/src/scheduling/fair_policy.rs:14-152 | `BinaryHeap` is a max-heap under the runtime order, so `peek` gives the process that has run longest | a process that has not run and one that ran 10: the advice is the second | advise the process that has run least | not executed | FairPolicies.AdviseAsWrittenPrefersLongestRun | FairPolicies.AdvisedSpec |
