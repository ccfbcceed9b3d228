# FatFs volume engine and 64-bit division: a Dafny model

This project models the FAT12/16/32 engine of this repository (FatFs R0.14b as
configured in `Multiboot/ff14b/ffconf.h`: 512-byte sectors, read/write, private
file buffers, no long names, no exFAT, code page 932, one volume) and the signed
64-bit division runtime of the boot launcher, and proves what they are for.

The layers follow the source, each with a plain meaning that the next one uses:

| module | meaning |
|---|---|
| `Bytes`, `Geometry`, `Mount` | sectors, words, and where the parts of a volume lie; the boot record analysis |
| `FatTable` | the packed allocation table (12, 16, 28 bits) as a sequence of values |
| `FileSystem` | class `Volume`: a device behind one write-back window; its meaning is the *logical volume* `Vol()`, the device overlaid by the dirty window, with both table copies equal |
| `Chains`, `Allocation` | cluster chains, growing (`Extended`) and cutting (`Cut`) them, who owns which cluster; remove_chain, create_chain, f_getfree |
| `FileData`, `Files` | the bytes of a file as its sectors hold them; class `File` with f_read, f_write, f_lseek, f_truncate, f_sync, f_close |
| `Entries`, `Directory`, `DirTable`, `Directories` | 32-byte entries, a directory as a map from names to slots, where the slots lie; class `Dir` with the dir_ functions |
| `Operations`, `MakeDir` | f_open, f_unlink, f_mkdir on the last segment of a path |
| `Others` | what an operation on one object leaves alone, files that are open at the same time included |
| `Sessions` | several files open in one directory: every operation beside the others, and runs of calls |
| `ImageTool` | the image tool's InsertFile and InsertFileToImage, and reading back after a fresh mount |
| `Positions` | two ways to one position: dir_sdi against dir_next, the shortcut seek against the seek from the head |
| `TinyVolume`, `Examples` | the smallest volumes on which three expectations about the driver fail |
| `Names`, `LinkMap` | 8.3 names; the cluster link map |
| `Division` | _alldiv and _allrem on register pairs |

How the main results fit together:

- Everything below the file layer is stated on the logical volume. `Volume.Valid()`
  says that a clean window equals the device, that a dirty one shows a sector of
  the first table copy or one outside the tables, and that the copies agree.
- `File.Valid()` ties the fields to the ghost `chain` and `contents`: the chain is
  in the table, the sectors hold the bytes once the private buffer is laid over
  them, the window shows no sector of the file, and, unless an operation was
  aborted, `clust` is the cluster of byte `fptr - 1` and the buffer shows the
  cursor's sector inside a sector.
- Every operation on a file or directory is a step of two kinds on the table:
  `Extended` (free clusters appended to one chain) or `Cut` (a tail of one chain
  freed). `Chains.RunKeepsOwned` shows that such steps keep every chain acyclic,
  ended and disjoint from the others, and every used cluster owned, over every run.
- What allocation does is a function of the table and the two hints: `Choice` for
  one create_chain, `GrowTo` for growing a chain to a number of clusters. f_write
  and f_lseek end in exactly the state `GrowTo` gives, so it is known before the
  call whether they complete, stop short or are aborted, and the result of a seek
  does not depend on where the cursor was.
- A `Session` is a directory, the files open in it with their slots, and who owns
  which cluster: owner 0 is the directory, owner i + 1 the object in slot i, the
  rest are objects elsewhere; `bad` are used clusters nobody answers for, so that
  any family of disjoint chains is allowed. Each
  operation (`OpenBeside`, `CallBeside`, `SyncBeside`, `CloseBeside`,
  `UnlinkBeside`, `MkdirBeside`) leads from a valid session to a valid one: this
  is ownership per operation, with the owners tied to the directory entries, and
  isolation of all files that are open at the same time.
- `Sessions.RunCalls`: over any sequence of calls on any of the open files, every
  user sees a plain sequence of bytes with a cursor, as if he were alone; what the
  users share is a number of free clusters. On a sound volume (no error values, a
  right free count) that number and the files' own cluster counts determine where
  every cursor ends: a write is complete exactly when it ends inside the file's
  and the free clusters together. Lemmas over these traces (`UndamagedRun`,
  `AbortStays`, `FlagStays`, `SettledRun`) say what every run keeps.
- `CountRight` (a cached free count that is in range is right) is kept by every
  operation that takes part.
- The formats are also stated in literal positions, beside the functions that the
  operations share: `FatTable.EntryByBytes`, `Entries.EntryBytes` and what is stored
  into an entry, `Directory.FindByBytes` and `VisibleByBytes`,
  `Mount.MountableByBytes` and `LayoutByBytes`, `DirTable.SlotsByBytes`,
  `Names.SegmentAccepted`.
- `ImageTool.RunThenRead` and `ImageTool.InsertThenRead` put the layers together:
  after any run of calls and f_close of all files, and after a list of files was
  inserted, a fresh mount of the device, f_open and f_read give back what was
  written.

## What the proofs found

- A volume whose boot record announces FSInfo but has only one reserved sector
  gets FSInfo written over the first table sector (`Mount.FsInfoMissesTable`):
  `Mount.OneReservedMounts` is such a boot record, and by `Mount.TableLost` the
  clusters 2 to 120 are free after sync_fs, whoever owned them. The other results
  assume two reserved sectors when FSInfo is in use.
- The streaming free count also counts entries 0 and 1: it is right exactly when
  both are nonzero (`Allocation.StreamedCountRight`).
- An accepted boot record gives a usable layout exactly when its sums stay below
  2^32 and the volume ends on the device; mount_volume checks neither
  (`Mount.MountLayout`).
- The name segment "." is accepted and becomes eleven blanks (`Names.PeriodAlone`).
- The link map builder takes the end mark for a cluster when the last cluster of
  the volume is ended by the number after it (`LinkMap.BuildMap`); no end mark of
  the format is that number (`LinkMap.StandardEndIsEnd`).
- InsertFile compares byte counts modulo 2^32: reported success is right exactly
  for sources of less than 4 GiB, and a new file on a full volume is reported as
  stored exactly when its length is a multiple of 4 GiB (`ImageTool.InsertFile`;
  `Examples.FalseSuccess` is such an input).
- f_write sets the modified flag only when it is not aborted, and it is never
  aborted on a table without error values. After f_write and then f_sync the entry
  describes the contents exactly when the flag was set before, or the write is not
  aborted, or the aborted write is harmless: it ends inside the old size, and if it
  fills up a sector from its middle, with the bytes that are there
  (`Sessions.WriteThenSync`); `Examples.LostWrite` is a write whose bytes f_sync
  does not record.
- f_close loses the clusters of a file exactly when its flag is clear and its entry
  does not tell its start cluster, which takes an aborted f_write into a file
  without clusters (`Sessions.CloseBeside`); `Examples.LeakedCluster` is such a
  write.
- f_truncate leaves the buffer showing a sector of the file exactly when that sector
  lies in front of the cut (`Files.File.Truncate`); `Examples.BufferLost` is a state
  where it does not. Beside other open files such a buffer is not safe: another
  file may get the sector.
- The only quotient that does not fit 64 bits is -2^63 by -1
  (`Division.QuotientRepresentable`).

## Model

| member | source | states |
|---|---|---|
| Geometry.Clst2Sect | Multiboot/ff14b/ff.c:1114-1122 | the first sector of a cluster in range, computed with 32-bit wrap-around; 0 for every other number |
| Geometry.ClusterRuns | Multiboot/ff14b/ff.c:1119-1121 | clusters own disjoint runs of sectors inside the data area and the device |
| Geometry.ClusterPlace | Multiboot/ff14b/ff.c:1114-1122 | cluster c starts csize * (c - 2) sectors behind the start of the data area |
| FatTable.EntryInTable | Multiboot/ff14b/ff.c:3506-3509 | every entry below the entry count lies completely inside the first copy of the table, for 12, 16 and 28 bits |
| FatTable.EntryByBytes | Multiboot/ff14b/ff.c:1145-1167 | which bytes of the table make an entry: 12 bits at 3c/2, in the lower or the upper part of a word; a word at 2c; 28 bits of the dword at 4c |
| FatTable.EndMarkEnds | Multiboot/ff14b/ff.c:41-43 | the end mark is FFF, FFFF or 0FFFFFFF, is at least the entry count and never the error value; numbers in range survive masking |
| FatTable.PutThenGet | Multiboot/ff14b/ff.c:1209-1258 | for every FAT type and alignment: after a store the entry reads as the masked value, every other entry as before, and the reserved bits of 28-bit entries are unchanged |
| FatTable.StoredEntryReads | Multiboot/ff14b/ff.c:1220-1256 | the same at the level of bytes: nibbles shared by 12-bit neighbours and entries straddling two sectors included |
| FatTable.PutEntryFrame | Multiboot/ff14b/ff.c:1209-1258 | a store changes no sector outside the copies of the table and keeps the copies equal |
| FileSystem.Volume.constructor | Multiboot/ff14b/ff.c:3511-3538 | a freshly mounted volume shows exactly the device |
| FileSystem.Volume.WindowShows | Multiboot/ff14b/ff.c:1047-1068 | the window always shows the logical bytes of its sector |
| FileSystem.Volume.SyncWindow | Multiboot/ff14b/ff.c:1025-1043 | writing the window back leaves the logical volume (device overlaid by the dirty window) unchanged, mirrors table sectors, and makes the device equal to it |
| FileSystem.Volume.MoveWindow | Multiboot/ff14b/ff.c:1047-1068 | the logical volume is unchanged and the window shows the requested sector of it |
| FileSystem.Volume.GetFat | Multiboot/ff14b/ff.c:1131-1199 | the entry of the table as a sequence, 1 for a number out of range; the logical volume is unchanged |
| FileSystem.Volume.PutFat | Multiboot/ff14b/ff.c:1209-1258 | one update of the table as a sequence, nothing outside the table touched, both copies kept equal; an internal error and no change for a number out of range |
| FileSystem.Volume.SyncFs | Multiboot/ff14b/ff.c:1078-1104 | device and logical volume agree afterwards; FSInfo is the only sector that gets new content, and only when it is in use and out of date |
| Chains.UnlinkBounded | Multiboot/ff14b/ff.c:1424-1456 | on any table, cyclic or cross-linked, the freeing walk frees one more cluster each round and needs at most n_fatent - 2 rounds |
| Chains.UnlinkChain | Multiboot/ff14b/ff.c:1424-1456 | on a well-formed chain the walk frees exactly the clusters of the chain, one round each |
| Chains.ExtendByOne | Multiboot/ff14b/ff.c:1570-1584 | marking a free cluster as end and linking it from the last cluster gives an acyclic, ended chain that is longer by it |
| Chains.ExtendedTrans | Multiboot/ff14b/ff.c:3975-4057 | growing a chain several times is growing it once: only formerly free clusters are added |
| Chains.CutAt | Multiboot/ff14b/ff.c:1417-1421 | ending the chain at a cluster and freeing the rest leaves a well-formed prefix and a free tail |
| Chains.ExtendedCount | Multiboot/ff14b/ff.c:1494-1585 | a chain and the free clusters are together as many after growing the chain as before |
| Chains.CutCount | Multiboot/ff14b/ff.c:1399-1485 | and so they are after cutting it |
| Chains.ExtendKeepsOwned | Multiboot/ff14b/ff.c:1494-1585 | growing one object's chain keeps all chains acyclic, ended and pairwise disjoint, and every used cluster owned |
| Chains.CutKeepsOwned | Multiboot/ff14b/ff.c:1399-1485 | cutting or freeing one object's chain keeps all of that too: nothing leaks, nothing is cross-linked |
| Chains.RunKeepsOwned | Multiboot/ff14b/ff.c:3709-3747 | ownership holds after every run of abstract steps: creations, growths, cuts and deletions; OpenedOwned, StepOwned, DeletedOwned and CreateDirectoryKeepsOwned tie each operation to them, and for runs of the calls themselves ownership is part of the session RunCalls keeps valid |
| Chains.OwnerLost | Multiboot/ff14b/ff.c:1399-1485 | when nobody knows an object any more its clusters stay in use without an owner, and everything else is owned as before |
| Allocation.RemoveChain | Multiboot/ff14b/ff.c:1399-1485 | for every table: the table afterwards is that of the freeing walk after ending the chain at pclst, with the exact conditions of both error returns; a right free count stays right, an unknown one unknown |
| Allocation.ScanFree | Multiboot/ff14b/ff.c:1557-1568 | the wrap-around scan from any start answers what the scan function gives: the first free cluster in scan order, 1 exactly when it meets an error value before a free cluster, 0 when it has seen all |
| Allocation.ScanMeaning | Multiboot/ff14b/ff.c:1557-1568 | the scan is decided by the first cluster in scan order that is free or has the error value: the answer is 1 exactly when that one has the error value, 0 exactly when there is none, else that free cluster |
| Allocation.CreateChain | Multiboot/ff14b/ff.c:1494-1585 | follows a link, or takes exactly the cluster the choice function of table and hints gives (neighbour first, then the scan), links and end-marks it, and counts the free count down; 1 only when an entry of a cluster has the error value; the free count is conserved |
| Allocation.SearchMeaning | Multiboot/ff14b/ff.c:1531-1568 | the chosen cluster is free, and is the neighbour or the first free one round from the hint; 0 only on a full table, 1 only on a damaged one |
| Allocation.SearchByNumbers | Multiboot/ff14b/ff.c:1501-1568 | the search in numbers: the cluster behind the given one decides if it is free or has the error value, else the first such cluster from the hint on, wrapping from the last to 2; 0 when all are in use |
| Allocation.GrowMeets | Multiboot/ff14b/ff.c:3975-3990 | growing a chain by any number of clusters meets an error value only when the table had one before |
| Allocation.GrowSplit | Multiboot/ff14b/ff.c:3975-4057 | growing a chain to a target in two stages is growing it at once: same table, chain, hints and outcome |
| Allocation.GrowFits | Multiboot/ff14b/ff.c:1494-1585 | on a table without error values and with a right free count, growing a chain takes exactly the clusters asked for while there are free ones, and all that are free otherwise; chain and free clusters together stay as many |
| Allocation.GrowStops | Multiboot/ff14b/ff.c:1494-1585 | growing that ran out of room finds no room again |
| Allocation.ZerosAreFree | Multiboot/ff14b/ff.c:4804-4822 | counting zero entries counts the free clusters plus entries 0 and 1 |
| Allocation.StreamedCountRight | Multiboot/ff14b/ff.c:4774-4822 | the streaming free count equals the entry-by-entry count exactly when FAT[0] and FAT[1] are not zero |
| Allocation.CountEntries | Multiboot/ff14b/ff.c:4774-4781 | on FAT12 the count is the number of free clusters; an error exactly when an entry has the error value |
| Allocation.CountSectors | Multiboot/ff14b/ff.c:4804-4822 | reading the table sector by sector as words counts every zero entry |
| Allocation.GetFree | Multiboot/ff14b/ff.c:4750-4833 | a known count is given as it is, an unknown one is replaced by the scan's |
| FileData.SectorsDistinct | Multiboot/ff14b/ff.c:1114-1122 | a chain without repeated clusters has no repeated sector |
| FileData.SectorsApart | Multiboot/ff14b/ff.c:1114-1122 | chains without a common cluster have no common sector |
| FileData.DirectWriteRep | Multiboot/ff14b/ff.c:4011-4031 | whole sectors written past the buffer replace exactly that part of the file's bytes |
| FileData.PartialWriteRep | Multiboot/ff14b/ff.c:4047-4055 | a piece put into the buffered sector replaces exactly that part, also at the growing edge |
| FileData.OverlayDirty | Multiboot/ff14b/ff.c:3896-3912 | a multi-sector read with the dirty sector copied over it reads the newest bytes |
| FileData.StateDirect | Multiboot/ff14b/ff.c:4011-4031 | the bypass write with the refreshed buffer keeps the file invariant |
| FileData.StateCut | Multiboot/ff14b/ff.c:4855-4878 | freeing the tail and writing a dirty buffer back, even into a freed cluster, leaves the bytes up to the cut |
| FileData.ByteCluster | Multiboot/ff14b/ff.c:4455-4458 | dividing an offset by the cluster size in bytes gives the number of its cluster |
| Entries.ClustRoundTrip | Multiboot/ff14b/ff.c:1817-1844 | a stored start cluster is read back, split halves on FAT32 included |
| Entries.EntryBytes | Multiboot/ff14b/ff.c:1817-1829 | the start cluster is the word at 26, on FAT32 with the word at 20 above it; the size is the dword at 28, the name the first 11 bytes |
| Entries.StClustBytes | Multiboot/ff14b/ff.c:1834-1844 | storing a start cluster sets the word at 26 and, on FAT32 only, the word at 20, and no other byte |
| Entries.RecordedEntryReads | Multiboot/ff14b/ff.c:4124-4135 | the entry f_sync records, byte by byte: start cluster at 26 and 20, size at 28, time of modification at 22, no date at 18, bit 5 of byte 11 set; all other bytes, name and time of creation included, as they were |
| Entries.ResetEntryReads | Multiboot/ff14b/ff.c:3729-3737 | the entry of a created or overwritten file, byte by byte: no cluster, no size, both times, attribute 20; name and all other bytes as they were |
| Files.File.constructor | Multiboot/ff14b/ff.c:3790-3805 | a file object opened on a consistent entry satisfies the file invariant with its cursor at 0 |
| Files.File.Write | Multiboot/ff14b/ff.c:3950-4062 | the bytes replace exactly contents[fptr..fptr+bw]; the outcome (complete, short, aborted), the table, chain and hints are exactly those of growing the chain for the write, known before the call; the modified flag is set exactly when it was or the write is not aborted; nothing but the table and this file's sectors changes |
| Files.File.AbortsWhenDamaged | Multiboot/ff14b/ff.c:3975-3990 | a write is aborted only on a table with an error value |
| Files.File.NothingToGive | Multiboot/ff14b/ff.c:3975-3990 | on a full table without error values an empty file gets no cluster |
| Sessions.DoWrite | Multiboot/ff14b/ff.c:3950-4062 | how much f_write stores: on a sound volume the cursor ends exactly at the least of the target, the 4 GiB limit and the end of chain and free clusters together, and the chain has exactly the clusters for it; after a short write no later one stores a byte |
| Sessions.DoSeek | Multiboot/ff14b/ff.c:4367-4522 | how far f_lseek gets: on a sound volume exactly to the target or the end of chain and free clusters together; otherwise short of it only when no cluster is to be had |
| Sessions.RoomReaches | Multiboot/ff14b/ff.c:3975-4057 | growing to the clusters of a position and stopping at the end of what is free reaches the least of the two positions |
| Files.File.Read | Multiboot/ff14b/ff.c:3850-3940 | exactly the bytes between the cursor and the end that were asked for, for every mix of partial sectors, bypass transfers and dirty buffer; no byte of the logical contents changes |
| Files.File.Seek | Multiboot/ff14b/ff.c:4367-4522 | the cursor reaches the target, clipped to the size when not writable, or the end of the last cluster when the disk fills; outcome and allocation are those of growing the chain for the target, whatever the cursor was; old bytes are kept, both invariants hold again |
| Files.File.SeekStart | Multiboot/ff14b/ff.c:4452-4472 | starting in the current cluster when the target is not before it is a correct start of the walk |
| Positions.SeekAgainstHead | Multiboot/ff14b/ff.c:4452-4518 | a seek that may start in the current cluster and a seek from the head of the chain, in two files in the same state: same result, table, hints, chain, cursor, cluster and sector, and the same buffered bytes inside the old contents |
| Files.File.SeekEnd | Multiboot/ff14b/ff.c:3807-3831 | opening for appending puts a valid cursor at the end of the file |
| Files.File.Truncate | Multiboot/ff14b/ff.c:4842-4883 | the contents are the bytes up to the cursor, the chain its first ceil(fptr / cluster size) clusters, exactly the others are free, the cursor stays valid; the buffer shows a sector of the file afterwards exactly when that sector lies in front of the cut, and as before when nothing is cut |
| Files.File.Sync | Multiboot/ff14b/ff.c:4071-4141 | a changed file is completely on the device: its bytes, the table and its entry; nothing but the entry's sector and FSInfo differs from the buffered view |
| Files.File.Close | Multiboot/ff14b/ff.c:4152-4178 | the same for f_close, and the object is invalid afterwards |
| Files.File.Undisturbed | Multiboot/ff14b/ff.c:1047-1068 | an open file, dirty buffer and all, is not disturbed when its links stay and neither its sectors nor the buffered one are among those changed |
| Files.File.InsideStays | Multiboot/ff14b/ff.c:4842-4883 | the buffer lies in front of the cut inside a sector, without a buffered sector, and when nothing is cut off |
| Others.OtherFileKept | Multiboot/ff14b/ff.c:3950-4062 | writing or seeking in one file leaves chain and bytes of every other file as they were |
| Others.OtherFileKeptByCut | Multiboot/ff14b/ff.c:4842-4883 | truncating one file leaves every other file as it was |
| Others.OtherFileKeptByDir | Multiboot/ff14b/ff.c:2434-2529 | changing or stretching a directory leaves every file apart from it as it was |
| Others.OtherFileKeptByUnlink | Multiboot/ff14b/ff.c:4892-4977 | f_unlink of one object leaves chain and bytes of every other file as they were |
| Others.OtherFileKeptByMkdir | Multiboot/ff14b/ff.c:4986-5061 | so does f_mkdir, for every file there is |
| Others.SparedByStep | Multiboot/ff14b/ff.c:3850-4062 | calls on one file keep the links and all sectors of every chain apart from it, and keep it apart |
| Others.StepCounted | Multiboot/ff14b/ff.c:3850-4062 | a call on a file loses and makes no clusters: those of the file and the free ones are together as many as before; and it makes no error values |
| Others.SparedSlots | Multiboot/ff14b/ff.c:3850-4062 | a sub-directory whose sectors are kept has the same slots |
| Others.DirectoryKept | Multiboot/ff14b/ff.c:3950-4062 | file operations leave the slots of every directory apart from the file as they were |
| Others.OtherOpenFileKept | Multiboot/ff14b/ff.c:3850-4062 | two files open at once: whatever f_write, f_read, f_lseek or f_truncate do to one, the other keeps its whole state, dirty buffer included, also when it was truncated itself, as long as its buffered sector is not taken |
| Others.OtherOpenFileKeptBySync | Multiboot/ff14b/ff.c:4071-4178 | the same for f_sync and f_close of the other file, entry and FSInfo included |
| Others.OtherOpenFileKeptByDir | Multiboot/ff14b/ff.c:3653-5061 | the same for f_open, f_unlink and f_mkdir in a directory apart from the file |
| Directory.RegisterInserts | Multiboot/ff14b/ff.c:2434-2529 | registering an absent name, table stretched or not, makes it found at its slot; every other lookup keeps its answer; the directory stays well formed |
| Directory.RemoveLoses | Multiboot/ff14b/ff.c:2540-2575 | removing a found name makes it absent and keeps the directory well formed |
| Directory.RemoveKeepsOthers | Multiboot/ff14b/ff.c:2540-2575 | every other lookup keeps its answer |
| Directory.StretchKeepsLookups | Multiboot/ff14b/ff.c:1741-1752 | stretching a table changes no lookup |
| Directory.FindFinds | Multiboot/ff14b/ff.c:2384-2420 | in a directory whose entries after the first 00 are 00, every entry with the name is found by a lookup that stops at 00 |
| Directory.FindByBytes | Multiboot/ff14b/ff.c:2384-2420 | a lookup finds a slot exactly when it is the first, before any that starts with 00, with the 11 bytes of the name and bit 3 of byte 11 clear |
| Directory.VisibleByBytes | Multiboot/ff14b/ff.c:2327-2329 | dir_read gives out a slot exactly when it is the first, before any that starts with 00, that does not start with E5 or 2E and whose attributes are neither those of a long name nor of a volume label |
| Directory.NothingVisible | Multiboot/ff14b/ff.c:4945-4952 | a directory counts as empty exactly when every slot before the first 00 is one of these |
| Directory.FreeByBytes | Multiboot/ff14b/ff.c:1787-1799 | dir_alloc takes the first slot that starts with E5 or 00 |
| DirTable.SlotsPatched | Multiboot/ff14b/ff.c:2516-2523 | bytes stored through the window into one slot change that slot of the directory and no other |
| DirTable.SlotsByBytes | Multiboot/ff14b/ff.c:1671-1705 | slot i is the 32 bytes at 32 * (i mod 16) in sector i / 16 of the directory; there are at most 65536 |
| DirTable.TableByNumbers | Multiboot/ff14b/ff.c:1681-1703 | the sectors of the static root are those from dirbase up to the data area; of any other directory those of its chain |
| Directories.PlaceByNumbers | Multiboot/ff14b/ff.c:1666-1705 | cluster, sector and entry pointer of slot i in numbers: the static root from dirbase on, the FAT32 root from the cluster dirbase on, a sub-directory from its start cluster on |
| Directories.DirClear | Multiboot/ff14b/ff.c:1627-1656 | exactly the sectors of the cluster become zero, on the device and in the window |
| Directories.TableStretched | Multiboot/ff14b/ff.c:1741-1756 | a cleared cluster linked to the table appends cleared slots and changes no other sector |
| Directories.Dir.Sdi | Multiboot/ff14b/ff.c:1666-1705 | the object stands at the slot of the offset, in the static root, the FAT32 root and sub-directories; an error exactly when the offset has no slot; offset 0 of the root is the first sector of cluster dirbase, or sector dirbase |
| Directories.Dir.Next | Multiboot/ff14b/ff.c:1714-1765 | the object moves to the next slot; the walk ends only at the last one; with stretching, cleared slots are appended, or the disk is full, the table damaged, static or at its size limit |
| Positions.SdiAgainstSteps | Multiboot/ff14b/ff.c:1666-1765 | dir_sdi to a slot, and dir_sdi to the top followed by as many calls of dir_next: both succeed for the same slots and end at the same offset, cluster, sector and entry pointer |
| Directories.Dir.Find | Multiboot/ff14b/ff.c:2353-2424 | the answer is that of the lookup function on the slots, with the object and the window on the found entry |
| Directories.Dir.ReadItem | Multiboot/ff14b/ff.c:2275-2343 | the first visible entry from the position on, none exactly when there is none before the end mark; which that is by bytes: VisibleByBytes |
| Directories.Dir.Alloc | Multiboot/ff14b/ff.c:1775-1806 | the first free slot of the possibly stretched table; on failure there is none and the directory is unchanged |
| Directories.Dir.Register | Multiboot/ff14b/ff.c:2434-2529 | a fresh entry with the name in the first free slot, all other slots as before; on failure nothing is changed |
| Directories.Dir.Remove | Multiboot/ff14b/ff.c:2540-2575 | the first byte of the slot becomes E5; everything else on the volume is unchanged |
| Operations.Open | Multiboot/ff14b/ff.c:3653-3841 | each answer on an existing name exactly by mode, bit 0 and bit 4 of the attribute byte, and on an absent one by mode; a read-only file is never changed and never opened for writing; an existing file is opened with its bytes, a created or overwritten one empty with its old clusters freed; the other slots and the rest of the volume unchanged, the whole volume when nothing is opened; the window stays or shows table or directory |
| Operations.OpenedInserts | Multiboot/ff14b/ff.c:3700-3752 | whatever f_open did, the name is found at the object's slot and every other lookup keeps its answer |
| Operations.Overwrite | Multiboot/ff14b/ff.c:3728-3746 | the entry is reset and exactly the clusters of the old chain are freed |
| Operations.UnlinkObject | Multiboot/ff14b/ff.c:4892-4977 | denied when bit 0 of the attribute byte is set; a directory is deleted exactly when every slot before the first 00 starts with E5 or 2E or is part of a long name or a volume label, anything else always; then the slot is deleted, exactly the object's clusters are freed and everything is on the device; no sector but those of the table, the directory and FSInfo changes |
| MakeDir.CreateDirectory | Multiboot/ff14b/ff.c:4986-5061 | all or nothing: a cluster with the two dot entries and an entry in the parent, on the device; or the table, the slots and the parent's chain as before; no sector but those of the table, the parent, the new cluster and FSInfo changes |
| MakeDir.NewTableIsEmpty | Multiboot/ff14b/ff.c:5016-5027 | the new directory is well formed, empty for f_unlink, and no name that does not start with a period is found in it |
| MakeDir.DirEntryReads | Multiboot/ff14b/ff.c:5044-5049 | the entry of the new directory, byte by byte: its cluster, its time, attribute 10, all other bytes those of the fresh entry |
| MakeDir.DotEntryReads | Multiboot/ff14b/ff.c:5019-5023 | the dot entry, byte by byte: a period and ten blanks, attribute 10, the time, the directory's own cluster, zeros |
| MakeDir.DotDotEntryReads | Multiboot/ff14b/ff.c:5024-5026 | the dot-dot entry has a second period and the parent's cluster, all other bytes as the dot entry |
| MakeDir.CreateDirectoryKeepsOwned | Multiboot/ff14b/ff.c:4986-5061 | ownership of every cluster survives f_mkdir, with the new cluster owned by the new directory |
| Mount.AnalyseBpb | Multiboot/ff14b/ff.c:3460-3509 | accepts exactly the mountable boot records and computes their layout in 32 bits; FAT12 up to 4085 clusters, FAT32 from 65526 on, with the root cluster of the dword at 44 |
| Mount.MountableByBytes | Multiboot/ff14b/ff.c:3460-3509 | which boot records are accepted, by the bytes of each field |
| Mount.LayoutByBytes | Multiboot/ff14b/ff.c:3462-3504 | type, table copies, cluster size, root entries, table size, entry count, table start and FAT32 root cluster of the layout, by the bytes of each field |
| Mount.PartsInOrder | Multiboot/ff14b/ff.c:3496-3505 | on the device reserved sectors, tables, static root and data follow each other |
| Mount.PowerOfTwo | Multiboot/ff14b/ff.c:3471-3472 | the listed cluster sizes are the ones the source's bit test accepts |
| Mount.DisketteMounts | Multiboot/ff14b/ff.c:3460-3509 | a FAT12 boot record, that of a diskette, is accepted with 2849 entries and fits its device |
| Mount.SmallDiskMounts | Multiboot/ff14b/ff.c:3460-3509 | a FAT16 boot record of 40000 clusters is accepted and fits its device |
| Mount.MountLayout | Multiboot/ff14b/ff.c:3483-3509 | an accepted boot record gives a valid layout (copies, root area and data area one behind the other on the device, room for every entry) exactly when the volume ends on the device within 32 bits |
| Mount.WholeVolumeFits | Multiboot/ff14b/ff.c:3482-3497 | a volume whose sums do not wrap and that lies on the device meets that condition, and its data area ends inside it |
| Mount.FsInfoMissesTable | Multiboot/ff14b/ff.c:3496-3532 | the FSInfo sector is outside the table exactly when there are at least two reserved sectors |
| Mount.OneReservedMounts | Multiboot/ff14b/ff.c:3460-3532 | a failing input: a boot record of a FAT32 volume of 66000 clusters with one reserved sector that announces FSInfo is accepted, and its FSInfo sector is the first sector of the table |
| Mount.FsInfoFrees | Multiboot/ff14b/ff.c:1083-1099 | FSInfo in the first sector of the table makes the entries of the clusters 2 to 120 zero |
| Mount.TableLost | Multiboot/ff14b/ff.c:1078-1104 | sync_fs on such a volume, when FSInfo is out of date: the clusters 2 to 120 are free afterwards, whoever owned them |
| Mount.FsInfoReadsBack | Multiboot/ff14b/ff.c:1083-1099 | the FSInfo sector sync_fs writes is recognised at the next mount and gives the same two counters |
| Mount.FsInfoByBytes | Multiboot/ff14b/ff.c:3516-3524 | where a boot record announces FSInfo, and the three signatures by which it is recognised |
| Mount.SyncThenMount | Multiboot/ff14b/ff.c:1078-1104 | sync_fs and then a fresh mount of the device: the free count and the last cluster come back |
| Mount.MountVolume | Multiboot/ff14b/ff.c:3459-3552 | after an accepted mount of a device with equal table copies the filesystem object is consistent and shows exactly the device; its type and FAT32 root cluster by the numbers of the format |
| Sessions.CallBeside | Multiboot/ff14b/ff.c:3850-4062 | f_write, f_read, f_lseek or f_truncate at any cursor on one of several open files: its user sees a plain sequence of bytes and a cursor; the directory, the closed objects and the boot record are undisturbed, every cluster keeps one owner, no cluster is lost or made; the other open files are undisturbed as well, unless the buffer of one shows a sector of the called file instead of one of its own |
| Sessions.SyncBeside | Multiboot/ff14b/ff.c:4071-4141 | the same for f_sync; the entry describes chain and bytes of the file afterwards, on the device when it was changed; other open files are undisturbed unless a buffer shows a sector f_sync may write instead of one of its own |
| Sessions.WriteThenSync | Multiboot/ff14b/ff.c:3950-4141 | after f_write and then f_sync the entry describes chain and contents exactly when the modified flag was set, or the write is not aborted, or the aborted write is harmless: it ends inside the old size, and a sector it fills up from its middle gets the bytes it has; on the device in the first two cases, and in the third if the window did not wait; after an abort on an unmodified file exactly the bytes of such a sector stay in the dirty buffer |
| Sessions.AbortedAt | Multiboot/ff14b/ff.c:3994-4059 | an entry that described a file before an aborted write does so after it exactly when the write ended inside the old size and the buffer holds nothing new; then no cluster was added either |
| Sessions.OpenBeside | Multiboot/ff14b/ff.c:3653-3841 | f_open beside open files: each answer exactly by mode and attribute bits, a read-only file never changed; one more file is open under a slot of its own, the name is found there, other lookups keep their answer; the directory takes a cluster only when no slot is free; nothing else is disturbed, unless a buffer shows a sector of the grown directory instead of one of its own |
| Sessions.OpenedSlots | Multiboot/ff14b/ff.c:3700-3752 | the slots after f_open: well formed, a plain entry under the name in a slot that was free or had the name, all others as they were |
| Sessions.OpenedOwned | Multiboot/ff14b/ff.c:3700-3752 | f_open keeps ownership: the directory may grow, a dropped chain is free, a new object owns nothing yet |
| Sessions.UnlinkBeside | Multiboot/ff14b/ff.c:4892-4977 | f_unlink beside open files: the answer by the attribute byte and, for a directory, the bytes of its slots; the object is gone with its clusters, and nothing else is disturbed, unless a buffer shows a sector of the directory or the object instead of one of its own |
| Sessions.DeletedOwned | Multiboot/ff14b/ff.c:4892-4977 | deleting an object with its chain keeps ownership without it |
| Sessions.MkdirBeside | Multiboot/ff14b/ff.c:4986-5061 | f_mkdir beside open files: the new directory owns its cluster, and nothing else is disturbed, unless a buffer shows a sector of one of the two directories instead of one of its own; it fails only for an existing name, a directory without a free slot, a full volume or a damaged table, and then table and entries are as before |
| Sessions.RunCalls | Multiboot/ff14b/ff.c:3850-4178 | over every sequence of calls on any of the open files the answers (result codes, counts and bytes) and the views are those of independent byte sequences with cursors and modified flags that share a store of free clusters: each call keeps the sum of the file's and the free clusters, on a sound volume each cursor and cluster count is determined, and a write is short only when no cluster is to be had; the session stays valid, closed objects and the boot record are untouched, other entries unchanged |
| Sessions.UndamagedRun | Multiboot/ff14b/ff.c:3850-4178 | over every run on a table without error values none appear, no file is aborted, and a sound volume stays sound |
| Sessions.AbortStays | Multiboot/ff14b/ff.c:3850-4178 | over every run an aborted file stays aborted with the same result |
| Sessions.FlagStays | Multiboot/ff14b/ff.c:3850-4178 | over every run a file keeps its modified flag until f_sync is called on it |
| Sessions.SettledRun | Multiboot/ff14b/ff.c:3850-4178 | over every run without an abort the window never waits to be written without a file whose flag is set |
| Sessions.CloseBeside | Multiboot/ff14b/ff.c:4152-4178 | f_close beside other open files: the entry describes chain and bytes of the file, on the device when it was changed; its clusters are lost exactly when the modified flag is clear and the entry does not tell the start cluster, both readable before the call: then it tells none, and the clusters stay used without an owner |
| ImageTool.WriteAll | imagetool/imagetool.cpp:52-66 | what is stored is a part of the source from its start, all of it or nothing can follow; on a sound volume exactly what fits; success is reported exactly when bytes asked for and bytes stored agree modulo 2^32 |
| ImageTool.InsertFile | imagetool/imagetool.cpp:36-77 | refused only for a directory, a read-only file or want of a slot; otherwise the part of the source that is stored under the name on the device is known, on a sound volume exactly what fits, in exactly the clusters it needs; reported success means the whole source is stored exactly when it is shorter than 4 GiB; a new file on a full volume is reported as stored exactly when its length is a multiple of 4 GiB; all other slots, lookups and objects are what they were |
| ImageTool.InsertFiles | imagetool/imagetool.cpp:89-93 | up to the first failure every source of less than 4 GiB whose name is not used again is held under its name, also after the failure; why the next one failed: refused, or a part stored that the counters tell from all of it; no failure on a sound volume when every name can be created, there is a free slot for each, the sources are shorter than 4 GiB and the free clusters are enough for all |
| ImageTool.FitOn | imagetool/imagetool.cpp:89-93 | a list that fits still fits after its next file was stored: slots, clusters and names |
| ImageTool.AllKept | imagetool/imagetool.cpp:52-66 | what fits by the free clusters is stored completely, in exactly the clusters it needs |
| ImageTool.ReadBack | Multiboot/ff14b/ff.c:3653-3940 | a fresh mount, f_open and f_read give exactly the bytes of a file that is on the device |
| ImageTool.InsertThenRead | imagetool/imagetool.cpp:79-97 | durability of a list: after dropping all caches, mounting, opening and reading gives exactly each stored source of less than 4 GiB whose name does not come again; every one of them when the list fits on a sound volume |
| ImageTool.RunThenRead | Multiboot/ff14b/ff.c:3653-4178 | durability of any run: after any calls on open files and f_close of all of them, a fresh mount, f_open and f_read of any one give exactly the bytes its user saw last, if the file is flagged or not aborted and the window does not wait without a flagged file; so it is for every file with the flag that is not synchronized in the run, and on a table without error values for every file that was in order before it |
| ImageTool.DurableRun | Multiboot/ff14b/ff.c:3850-4178 | what is known before a run and from its calls is enough for durability after it |
| ImageTool.CloseAll | Multiboot/ff14b/ff.c:4152-4178 | f_close of all open files, one after another: each that is flagged or not aborted is held under its name with the bytes its user saw; the window waits afterwards only if it did and no file was flagged |
| Examples.LostWrite | Multiboot/ff14b/ff.c:3994-4059 | a failing input: 600 bytes over a file of 100 bytes, the next cluster with the error value; 512 are written, and after f_sync the entry still tells 100 bytes |
| Examples.LeakedCluster | Multiboot/ff14b/ff.c:3994-4178 | a failing input: 600 bytes into an empty file, one free cluster and one with the error value; 512 are written, and after f_close the cluster is used and the entry tells no cluster and no bytes |
| Examples.BufferLost | Multiboot/ff14b/ff.c:4855-4878 | a failing state: two clusters, clean buffer in the second, cursor at the boundary; f_truncate leaves the buffer on a free sector |
| Examples.FalseSuccess | imagetool/imagetool.cpp:57-74 | a failing input: 4 GiB on a full volume; both counters wrap to 0, success is reported and nothing is stored |
| Names.CreateName | Multiboot/ff14b/ff.c:2932-2992 | accepts exactly the segments of the form (body of at most 8 bytes, period, extension of at most 3, whole characters of code page 932, no forbidden ones), and gives the 11 bytes: letters 61 to 7A as their capitals, all other bytes kept, blanks behind, a leading E5 replaced |
| Names.GetName | Multiboot/ff14b/ff.c:2691-2701 | the text of the 11 bytes |
| Names.ParseForm | Multiboot/ff14b/ff.c:2951-2986 | from every state of the loop: what is accepted is a segment of the form, and its name is that of the segment's body and extension; double-byte characters are never split |
| Names.SegmentAccepted | Multiboot/ff14b/ff.c:2951-2990 | every segment of the form is accepted, and which 11 bytes it becomes |
| Names.SameName | Multiboot/ff14b/ff.c:2951-2990 | two segments have the same name exactly when body and extension agree in capitals |
| Names.FoldedLetters | Multiboot/ff14b/ff.c:2981 | in a field without double-byte characters byte k becomes 20 less for 61 to 7A and stays otherwise |
| Names.NamePrinted | Multiboot/ff14b/ff.c:2691-2701 | a name is printed as its fields in capitals, with a period in front of an extension |
| Names.NameRoundTrip | Multiboot/ff14b/ff.c:2691-2701 | print what a segment became and parse it again: the same 11 bytes, leading E5 restored, exactly when the segment is not a single period |
| Names.PeriodAlone | Multiboot/ff14b/ff.c:2957-2961 | the failing input: a single period is accepted, becomes 11 blanks and is printed as nothing |
| Names.ParsedIsProper | Multiboot/ff14b/ff.c:2989-2990 | no accepted name looks like a deleted, an ending or a dot entry |
| LinkMap.BuildMap | Multiboot/ff14b/ff.c:4394-4419 | the run-length table of the chain and the exact space it needs; an error exactly when the last cluster of the volume ends the chain with the very next number |
| LinkMap.ClmtClust | Multiboot/ff14b/ff.c:1597-1615 | the (offset / cluster size)-th cluster of the chain for every offset, 0 behind its end |
| LinkMap.MapFollowsChain | Multiboot/ff14b/ff.c:1604-1614 | looking up along the map is following the chain |
| LinkMap.MapSize | Multiboot/ff14b/ff.c:4394-4414 | the map has two items for every fragment of the chain, its size in front and a zero at the end |
| LinkMap.StandardEndIsEnd | Multiboot/ff14b/ff.c:4402-4411 | chains ended by any end mark of the format, the one the driver writes included, never meet that error |
| Division.EstimateBounds | launcher/asm/alldiv.c:48-56 | the shifted estimate is the true quotient or one more |
| Division.EstimateCorrected | launcher/asm/alldiv.c:57-69 | the comparison of the product, carried and discarded words included, corrects exactly the estimates that are too big |
| Division.Normalize | launcher/asm/alldiv.c:44-54 | the shift loop leaves a divisor of one word and a dividend whose division cannot overflow |
| Division.MagnitudeQuotient | launcher/asm/alldiv.c:32-73 | the quotient of the magnitudes, by two short divisions or by the corrected estimate |
| Division.AllDiv | launcher/asm/alldiv.c:2-86 | the quotient of the signed words rounded toward zero, modulo 2^64, for every nonzero divisor |
| Division.AllRem | launcher/asm/allrem.c:2-85 | the remainder with the sign of the dividend, modulo 2^64 |
| Division.TruncDivRem | launcher/asm/allrem.c:2-85 | quotient and remainder give the dividend back, and the remainder is smaller than the divisor |
| Division.QuotientRepresentable | launcher/asm/alldiv.c:74-79 | the 64-bit result is the true quotient exactly when the division is not -2^63 by -1 |
| Division.RemainderRepresentable | launcher/asm/allrem.c:74-79 | the 64-bit result is always the true remainder |

## Left out

- Device errors: disk_read and disk_write always succeed, so the results for disk errors and the branches that pass them on do not occur; the device is a sequence of sectors.
- Path following: f_open, f_unlink and f_mkdir start from the directory object of the last segment and its parsed name; drive numbers, separators between segments and the name status byte are not part of this model.
- Timestamps are parameters; f_mount registration, find_volume, object identity checks and disk status are represented by the sector of the boot record and the isOpen flag.
- The bit masks by the cluster size are written as remainders, and its power-of-two test as the list of powers (Mount.PowerOfTwo).
- The caller's read buffer is returned as a sequence instead of being filled in place.
- Branches the file invariant rules out (clst2sect giving 0, a chain shorter than the file in f_read) are not written out.
- FSInfo in the only reserved sector: volumes where it would overwrite the table are excluded by Volume.Valid().
- Directories longer than 2 MiB are cut off at the driver's limit, as in the source; slots behind it do not exist in the model.
- f_opendir, f_readdir, f_rename, f_stat, f_chmod, f_utime, labels, f_forward and string functions: they combine the modelled steps and would add only easy members.
- Long names, exFAT, Unicode, GPT, f_mkfs, f_expand, locks and re-entrancy: disabled by the configuration.
- The fast seek that uses the link map: the map's builder and lookup are modelled, not the second seek path built on them.
- launcher/asm/allmul.c, allshr.c and aullshr.c: single instructions or short shifts.
- Sessions.RunCalls: beside other open files a run stops in front of an f_truncate that cuts something off at a sector boundary with a sector in the buffer, because that may leave the buffer on a sector another file can get (Examples.BufferLost); a file that is open alone may be truncated anywhere.
- Sessions: the open files have their entries in one directory; files in other directories take part as closed objects.
- Host file access of the image tool and the multiboot driver: replaced by the sequence of sectors and the source bytes.
