# FatFs R0.09 in Dafny

A model of the FAT file system module FatFs R0.09 (`FATFS_V0.09/src/ff.c`), in layers that each refine something
simpler:

- the one-sector write-back window over the disk, with FAT mirroring (`volume.dfy`, `blocks.dfy`), and the log of all
  disk images that the single sector writes produce (`disk.dfy`, `writebehind.dfy`);
- the file allocation table as a map from clusters to 12-, 16- or 28-bit entries, and byte by byte (`fatmap.dfy`,
  `fatbytes.dfy`, `geometry.dfy`);
- the cluster allocator over that map, and runs of it up to the next mount (`chains.dfy`, `allocator.dfy`,
  `syncing.dfy`, `mount.dfy`), and boot records byte by byte (`bootrecord.dfy`);
- directory tables: cursors, extension, long-name entries, numbered short names, lookup and registration (`cursor.dfy`,
  `directory.dfy`, `entries.dfy`, `longnames.dfy`, `shortnames.dfy`, `tables.dfy`, `dirtables.dfy`, `lookup.dfy`,
  `reserving.dfy`, `registration.dfy`);
- open files as byte streams, one at a time and many together, seeking with and without a link map, and text
  (`filemap.dfy`, `filegrowth.dfy`, `files.dfy`, `openfiles.dfy`, `reopening.dfy`, `opening.dfy`, `seekmap.dfy`,
  `seeking.dfy`, `linkmap.dfy`, `fastseek.dfy`, `text.dfy`);
- ordered write-back: which directory entries and links the disk images show (`ordering.dfy`, `extending.dfy`,
  `stale.dfy`);
- formatting, and mounting what was formatted (`formatting.dfy`, `mkfs.dfy`);
- all of these together, in runs of calls from a mount or a formatting on (`sessions.dfy`, `sessionruns.dfy`,
  `freshvolume.dfy`).

`Volume`, `Dir` and `File` are classes with the fields of the FATFS, DIR and FIL objects; ghost fields hold the sectors
as the file system sees them, the FAT, the set of metadata sectors, the metadata after every step, a file's chain and
its contents. The configuration is the one of `FATFS_V0.09/src/ffconf.h`: no tiny mode, 512-byte sectors, long names of
up to 255 characters, code page 437, writing enabled. The seek functions and the overlay of the dirty buffer in a direct
read need `_FS_MINIMIZE` below 3 and are compiled out there; a file's constant `seeking` says whether they are present,
and the results about reading and writing hold either way. The link map needs `_USE_FASTSEEK`, formatting `_USE_MKFS`.

Where the code differs from documentation, the model follows the code. The FAT types change at 4086 and 65526 clusters
(`FATFS_V0.09/src/ff.c:389-392`), not at 4085 and 65525 as in section "FAT Type Determination" of the FAT32 File
System Specification.

Every operation extends the log of disk images and the record of metadata steps (`old(log) <= log`, `old(steps) <=
steps`), so what is proved of the images logged since a state (`Ordering.ImagesSafe`) is about what the calls made
since then wrote.

Four properties one would expect are false of the code; each has a concrete input and the exact condition.

- Extending a directory is not always safe against a power cut. The new cluster is linked, and the FAT sector written,
  before the cluster is filled with zeros, so for a while its old contents are part of the directory on the disk.
  `Extending.ExtendDirectory` says that the images written by an extension are safe exactly if no live entry among the
  old contents leads to a free cluster; `StaleEntries.ExtendStale` carries out one for which they are not.
- A boot sector whose sizes wrap around in 32 bits can be accepted. `Mount.WrappingSizesAccepted` and
  `Mount.WrappingFatAccepted` are inputs, one for the sizes of the regions and one for the size of the FAT in bytes;
  `Mount.AcceptedIsChecked` says that an accepted layout is in order exactly if neither happens.
- A link map cannot be built if the end mark of the chain is its last cluster number plus one:
  `LinkMap.EndMarkMistaken` is an input, `LinkMap.Build` gives the condition both ways.
- Formatting can succeed with a volume that mounting refuses, because the aligned data area leaves no room for a
  cluster: `MakeFs.FormatRefused` does both, `MakeFs.FormattedMounts` gives the condition both ways.

## Model

| member | source | states |
|---|---|---|
| Volumes.Volume.MoveWindow | FATFS_V0.09/src/ff.c:719-751 | whatever sector is asked for, the sectors as the file system sees them stay the same, the window ends clean unless it stays where it was, and the disk differs from the view by at most the dirty sector and its mirror |
| Volumes.Volume.CopiesAgree | FATFS_V0.09/src/ff.c:727-736 | if the FAT copies agreed when the volume was mounted, then after any operations whatever they agree on the disk whenever the window is clean |
| Geometry.Layout.ZeroIffInvalid | FATFS_V0.09/src/ff.c:801-809 | a cluster number maps to sector 0 exactly if it is invalid |
| Geometry.Layout.ClustersDisjoint | FATFS_V0.09/src/ff.c:801-809 | different clusters own disjoint blocks of sectors, all in the data area of the volume |
| Geometry.Layout.ClustersFollow | FATFS_V0.09/src/ff.c:801-809 | the clusters fill the data area in the order of their numbers, from its start to the end of the volume |
| Geometry.Layout.Inside12 | FATFS_V0.09/src/ff.c:833-838 | both bytes of every 12-bit entry, for odd and even cluster numbers, lie in FAT copy 1, and all copies lie in front of the data area |
| Volumes.Volume.GetFat | FATFS_V0.09/src/ff.c:819-852 | reads the entry of a cluster from the bytes of FAT copy 1, least significant byte first: two bytes at twice its number on FAT16, four at four times its number without the top four bits on FAT32, and on FAT12 the low or the high twelve bits of two bytes at one and a half times its number; the answer is 1 for an invalid number, and nothing changes but the window |
| FatBytes.PutStoresBytes | FATFS_V0.09/src/ff.c:877-907 | storing an entry writes these bytes of FAT copy 1 accordingly and leaves every other byte of it: on FAT12 the neighbour's half byte stays, on FAT32 the top four bits stay, with the value's added |
| FatMap.PutIsUpdate | FATFS_V0.09/src/ff.c:877-907 | storing an entry is a map update for all three FAT types: this cluster reads the value cut to 12, 16 or 28 bits, every other one reads as before, the reserved nibbles of FAT32 are kept (the value's are added), sectors outside the FAT copies stay, and equal copies stay equal |
| Volumes.Volume.PutFat | FATFS_V0.09/src/ff.c:862-914 | performs that update, which is told byte by byte too, through the window, even if a 12-bit entry straddles two sectors and the window moves in between; an invalid cluster is an error and changes nothing |
| Chains.VisitsAllOnce | FATFS_V0.09/src/ff.c:999-1010 | in one round behind any start, the scan for a free cluster visits every cluster once and no other number |
| Chains.ScanFindsFree | FATFS_V0.09/src/ff.c:999-1010 | wherever the scan starts, it fails exactly if no cluster is free, and otherwise finds a free one (if no entry is 1) |
| Chains.ScanIsNearest | FATFS_V0.09/src/ff.c:999-1010 | the cluster found is the first free one in cyclic order |
| Chains.CreateTakesNearest | FATFS_V0.09/src/ff.c:984-1013 | a cluster that is allocated is the first free one behind the end of the chain, or for a new chain behind the last allocated cluster, going on at the first cluster after the last one; it is the first free one at all if the last allocated cluster is unknown |
| Allocator.FindFree | FATFS_V0.09/src/ff.c:999-1010 | the loop over the FAT returns the result of that scan |
| Allocator.CreateChain | FATFS_V0.09/src/ff.c:978-1027 | a new cluster is marked as end, then linked behind the chain's last one; the result code, the last allocated cluster, the free count and every step of the FAT are as specified, and nothing changes if nothing grows |
| Chains.RemoveFreesChain | FATFS_V0.09/src/ff.c:941-963 | removing a well-formed chain frees its clusters and no other, and counts each once |
| Allocator.RemoveChain | FATFS_V0.09/src/ff.c:925-967 | removal ends on every FAT, even a cyclic or cross-linked one; it frees what the links lead to, stops at an entry that is 1 or free, adjusts the free count, and shows the FAT after every single entry |
| Chains.RunKeepsConsistent | FATFS_V0.09/src/ff.c:925-1027 | every run of allocations and removals keeps the live chains end-marked, free of cycles and disjoint, and the free count exact |
| Chains.FreeBelowIsSize | FATFS_V0.09/src/ff.c:1017-1020 | the free count that the other results speak of is the size of the set of free clusters |
| Syncing.Sync | FATFS_V0.09/src/ff.c:761-790 | afterwards the disk is what the file system sees, with a current FSInfo sector on FAT32 if it was out of date |
| BootRecords.InfoInBytes | FATFS_V0.09/src/ff.c:771-782 | that FSInfo sector, byte by byte: three signatures, the free count and the last allocated cluster, and zeros |
| Syncing.RunSyncRemount | FATFS_V0.09/src/ff.c:771-782 | after any run of allocations and removals, a sync and a new mount, the mount finds the same layout and the number of clusters that are free |
| Mount.AcceptedIsChecked | FATFS_V0.09/src/ff.c:2086-2130 | the layout of an accepted boot sector has disjoint regions, a FAT large enough and the volume's end inside its limits, exactly if the sizes of the regions in front of the data area do not add up to 2^32 or more and, on FAT32, the FAT has room for all clusters |
| Mount.WrappingSizesAccepted | FATFS_V0.09/src/ff.c:2089-2107 | sizes that wrap around are accepted: an input |
| Mount.WrappingFatAccepted | FATFS_V0.09/src/ff.c:2110-2127 | a FAT of one sector is accepted for 0x4000000F clusters, because its size in bytes wraps around: an input |
| Mount.ChkMounted | FATFS_V0.09/src/ff.c:2008-2162 | finds the boot record in sector 0 or in the first partition, refuses or accepts it, and loads the free count and the last cluster from FSInfo, with the specified error for each way to fail; which volumes are accepted, told from the bytes, is what the next two rows say |
| BootRecords.DescribedIsMounted | FATFS_V0.09/src/ff.c:2043-2162 | every layout in order, with one or two FATs and any size of cluster, root directory and volume, is mounted from every boot record whose bytes describe it, in sector 0 or at the start of the first partition; on FAT32 the last cluster and the free count are those in FSInfo exactly if its three signatures are there, and else unknown |
| BootRecords.MountedIsDescribed | FATFS_V0.09/src/ff.c:2043-2162 | conversely, a disk that is mounted has such a boot record at that place, and it describes the layout, if the volume lies on the disk and the layout is in order |
| Cursor.NextIsSeek | FATFS_V0.09/src/ff.c:1123-1170 | one step of a directory cursor is possible exactly if the next entry can be sought directly, and leads to the same cluster, sector and offset |
| Cursor.AdvanceIsSeek | FATFS_V0.09/src/ff.c:1113-1171 | any number of steps from any entry, in the static root, the FAT32 root or a sub-directory, ends where seeking does |
| Directory.Dir.Sdi | FATFS_V0.09/src/ff.c:1065-1103 | places the cursor where following the chain from its start leads, with an error if it ends before |
| Directory.Dir.DirNext | FATFS_V0.09/src/ff.c:1113-1171 | steps as specified; at the end of a chain it appends a cluster and fills it with zeros if asked to, and nothing else outside the FAT changes; it is denied if no cluster is free |
| Directory.ClearCluster | FATFS_V0.09/src/ff.c:1148-1156 | zeros the sectors of the cluster one by one and no other sector, and leaves the window clean on the first of them |
| Entries.FieldsFromBytes | FATFS_V0.09/src/ff.c:2353-2354 | the start cluster and the size of a directory entry, from its bytes |
| Entries.SyncedInBytes | FATFS_V0.09/src/ff.c:2611-2617 | the entry of a synchronized file, byte by byte: archive attribute, time, start cluster and size, and nothing else |
| Entries.EmptiedInBytes | FATFS_V0.09/src/ff.c:2300-2307 | the entry of a file that is overwritten, byte by byte |
| LongNames.FitLfn | FATFS_V0.09/src/ff.c:1249-1274 | the entry written holds exactly its part of the name, padded, with the last-entry flag at the last part only; the other entries of the sector stay |
| LongNames.PartIsUnique | FATFS_V0.09/src/ff.c:1249-1274 | an entry is determined, in all its 32 bytes, by the name, the part and the checksum it holds |
| LongNames.PartInBytes | FATFS_V0.09/src/ff.c:1181-1274 | where each character of a part of a name stands in its entry, and in which byte order |
| LongNames.PickAll | FATFS_V0.09/src/ff.c:1216-1244 | the entries of a name put it together again exactly, for names of up to 253 characters; longer ones are refused |
| LongNames.AllMatchIffSame | FATFS_V0.09/src/ff.c:1185-1211 | all stored entries of a name pass the comparison exactly if the names are the same up to case and shorter than 255 characters |
| ShortNames.NumberedInjective | FATFS_V0.09/src/ff.c:1285-1322 | different numbers give different short names |
| ShortNames.NumberedParts | FATFS_V0.09/src/ff.c:1303-1322 | a numbered name is the stem, up to its first space or as far as there is room, a tilde, the digits, spaces, and the old extension |
| ShortNames.HexReads | FATFS_V0.09/src/ff.c:1303-1309 | the digits are hexadecimal ones and stand for the number |
| ShortNames.GenNumname | FATFS_V0.09/src/ff.c:1285-1322 | makes the numbered name of the n-th attempt in place: the stem cut to leave room for the number, which beyond the fifth attempt is a hash of the long name |
| Lookup.DirFind | FATFS_V0.09/src/ff.c:1353-1404 | finds the first entry of the table whose preceding long-name entries, in order and with the right checksum, match, or else whose short name matches; the cursor stands on it, and it is such an entry |
| Tables.FindIsSound | FATFS_V0.09/src/ff.c:1363-1403 | an entry that is found is live, and either its short name is the one looked for or the entries in front of it, numbered down to 1, carry its checksum and all pass the comparison |
| Tables.FindIsExact | FATFS_V0.09/src/ff.c:1363-1403 | the lookup succeeds exactly if there is such an entry in front of the end mark, and finds the first one |
| Tables.HitHasName | FATFS_V0.09/src/ff.c:1363-1403 | an object found by its long name has the name looked for up to case |
| Tables.LookupAfterRegister | FATFS_V0.09/src/ff.c:1363-1403 | an object registered under a name that was not found is found under that name in any case, at its short entry and with its own long-name entries |
| Tables.RegistrationKeepsOrder | FATFS_V0.09/src/ff.c:1489-1564 | registering a short name that was looked up in vain keeps all short names different and everything behind the end mark zero |
| Tables.RunKeepsOrder | FATFS_V0.09/src/ff.c:1471-1567 | the same for every sequence of attempts, those included that fail after extending the table |
| Reserving.ScanningIs | FATFS_V0.09/src/ff.c:1489-1533 | searching the table entry by entry and extending it cluster by cluster succeeds exactly if it has enough adjacent free entries, or if with those at its end enough are had by clusters that are free, up to 65536 entries; the static root directory cannot be extended; the error tells whether clusters or entries are short |
| Registration.DirRegister | FATFS_V0.09/src/ff.c:1471-1567 | succeeds exactly if one of the 99 numbered names is not taken (for a lossy name) and the entries can be reserved as just said, with the error code of what is short; it then writes the long-name entries and the short entry, which carries the name and the case flags and is zero otherwise; a refused registration leaves the old entries and adds only zeros; the steps are safe exactly if the old contents of the clusters appended are |
| Registration.CountDecides | FATFS_V0.09/src/ff.c:1120-1147 | with no FAT entry equal to 1, whether the entries can be reserved, and the error, depend on the table, its cluster size and the number of free clusters only |
| Registration.CreateAndFind | FATFS_V0.09/src/ff.c:1489-1564 | a name that is there already is refused as existing, and any other one is registered exactly if there is room as above; looking it up again finds the new short entry; short names stay different, and the steps are safe under the same condition |
| Registration.CreateAll | FATFS_V0.09/src/ff.c:1471-1567 | a loop of such calls is a run: each is answered as the table, the FAT and the chain before it say, all entries made earlier stay, short names stay different throughout, only metadata sectors change, and the steps are safe exactly if the extensions of the table are |
| Files.File.FRead | FATFS_V0.09/src/ff.c:2373-2464 | returns exactly the bytes of the contents from the pointer on, as many as were asked for and exist, whatever mix of buffered sectors, direct transfers and dirty buffer delivers them, and changes no contents |
| Files.File.FWrite | FATFS_V0.09/src/ff.c:2474-2584 | replaces exactly the bytes at the pointer by the first bytes of the data, extends the file to at least the pointer, writes less than all only if no cluster is free or the size would reach 4 GB, and changes nothing but the FAT and the sectors of the file's own chain |
| Files.File.FSync | FATFS_V0.09/src/ff.c:2593-2629 | a file that was written is on the disk afterwards: buffer, FAT, and a directory entry with its size and start cluster |
| Reopening.SyncAndReopen | FATFS_V0.09/src/ff.c:2593-2629 | a new file object made from the directory entry has the contents that were written |
| OpenFiles.PerformAll | FATFS_V0.09/src/ff.c:2373-2629 | any run of reads, writes and syncs on files open together answers like independent byte streams; a write is complete if a cluster is free in the end; a sync with something left to be written leaves a disk image, among those logged, whose directory entry and FAT lead to the contents; a file whose last operation is such a sync has nothing left to be written, and its entry records it; what the directory entries of unused files record stays; and all images logged since the start are safe if the steps were in order |
| OpenFiles.RecordedIsDurable | FATFS_V0.09/src/ff.c:2593-2629 | whenever the window is clean, a file whose directory entry records its state is on the disk |
| OpenFiles.SavedAreStored | FATFS_V0.09/src/ff.c:2593-2629 | the sectors as the file system sees them hold every file that is recorded and has nothing left to be written: its entry names a chain with exactly its contents |
| Opening.OverwriteFile | FATFS_V0.09/src/ff.c:2300-2315 | the entry is emptied first, then exactly the clusters of its chain are freed, no free cluster holds metadata if none did, and the steps stay safe |
| Ordering.MountIsInOrder | FATFS_V0.09/src/ff.c:2008-2162 | on a disk without dangling entries or links, the work area of a new mount starts in order |
| Ordering.ImagesAreSafe | FATFS_V0.09/src/ff.c:727-748 | if the steps are in order then on FAT16 and FAT32 every image the disk ever had, after any single sector write, shows no directory entry and no link that leads to a free cluster; directories are found by following that image's own FAT |
| Ordering.LoggedAreSafe | FATFS_V0.09/src/ff.c:727-748 | so if the steps are in order, all images logged since any earlier state are safe |
| Ordering.GrowthIsSafe | FATFS_V0.09/src/ff.c:1012-1015 | the steps of an allocation for a file are in order: the new cluster is marked before it is linked |
| Ordering.ReleaseIsSafe | FATFS_V0.09/src/ff.c:941-963 | the steps of a release are in order if no entry names a cluster of the chain any more |
| Ordering.StretchIsSafe | FATFS_V0.09/src/ff.c:1143-1156 | the steps of a directory extension are in order exactly if no entry among the old contents of the new cluster leads to a free cluster |
| Ordering.LinkedImageIsSafe | FATFS_V0.09/src/ff.c:1143-1156 | the image in which the new cluster is linked and its first k sectors are zeros is safe exactly if no entry in its other sectors leads to a free cluster |
| Extending.ExtendDirectory | FATFS_V0.09/src/ff.c:1143-1156 | after a safe start, the images written while a directory is extended are safe exactly if no entry among the old contents of the new cluster leads to a free cluster |
| StaleEntries.ExtendStale | FATFS_V0.09/src/ff.c:1143-1156 | mounting a certain safe disk and extending its directory writes an image that is not safe |
| Seeking.LSeek | FATFS_V0.09/src/ff.c:2876-2949 | the file object ends up in order with the pointer at the offset, cut to the size if the file may not be written, or at the end of the chain if no cluster is free; the bytes of the file stay, and it is left to be synchronized exactly if it was or has become larger |
| SeekMap.PathIndependent | FATFS_V0.09/src/ff.c:2884-2949 | the file objects of the same file at the same offset have the same current cluster and, inside a sector, the same buffered sector, wherever the seek started |
| LinkMap.RunsListChain | FATFS_V0.09/src/ff.c:2821-2844 | the fragments of a chain list its clusters in order |
| LinkMap.Build | FATFS_V0.09/src/ff.c:2818-2846 | the table built lists the fragments of the chain; it never stores behind the given length and always reports the number of items needed, 2 for every fragment and 2 more; it fails exactly if the end mark equals the last cluster plus one |
| LinkMap.EndMarkMistaken | FATFS_V0.09/src/ff.c:2821-2844 | a chain for which that happens: an input |
| LinkMap.ClmtClust | FATFS_V0.09/src/ff.c:1038-1055 | the cluster of an offset according to the table is the one the chain has there, or 0 behind its end |
| FastSeeking.FastSeek | FATFS_V0.09/src/ff.c:2848-2872 | the file object ends up in order at the offset, cut to the size |
| Text.TextRoundTrip | FATFS_V0.09/src/ff.c:3876-3952 | the lines read from the converted form of a string without CR make up the string, for every buffer length |
| Text.ConvertedIsConversion | FATFS_V0.09/src/ff.c:3918-3973 | what is written for a string is its characters in order, each LF directly behind a CR put in for it, and nothing else |
| Text.StrippedLeavesRest | FATFS_V0.09/src/ff.c:3876-3906 | what reading makes of bytes is all of them but the CRs, in order |
| Text.FPuts | FATFS_V0.09/src/ff.c:3961-3973 | the converted string arrives at the pointer, or as much of it as there is room for; the result is its length or EOF accordingly; if it is complete, then from the old pointer to the new one the file holds the characters in order, each LF directly behind a CR, and nothing else, and what was in front stays |
| Text.FGets | FATFS_V0.09/src/ff.c:3864-3909 | returns the next line without CRs, cut to the buffer length and terminated, and the pointer stands behind it |
| Text.PutAndGet | FATFS_V0.09/src/ff.c:3864-3973 | a string put, and the text got back after seeking to its start, are the same, followed by what was behind |
| Text.PutAndReopen | FATFS_V0.09/src/ff.c:3864-3973 | the same through a sync and a new file object, without seeking |
| Sessions.MountIsReady | FATFS_V0.09/src/ff.c:2008-2162 | on a disk without dangling entries or links whose directories start in clusters in use, no free cluster holds directory entries after mounting |
| Sessions.CreateInSession | FATFS_V0.09/src/ff.c:1471-1567 | creating an object while files are open succeeds exactly as in CreateAndFind, and keeps all of them in order, with their contents and what their entries record, and the directory with its unique names |
| Sessions.UseInSession | FATFS_V0.09/src/ff.c:2373-2629 | using a file keeps the other files and the directory in order: the same entries in use, under the same names |
| Sessions.SeekInSession | FATFS_V0.09/src/ff.c:2876-2949 | so does moving its pointer, which ends at the offset, cut to the size if the file may not be written, unless no cluster is free |
| SessionRuns.OverwriteInSession | FATFS_V0.09/src/ff.c:2300-2315 | so does overwriting a file that is not open, which frees exactly its chain |
| SessionRuns.CreateFile | FATFS_V0.09/src/ff.c:2278-2370 | creating a file and opening it adds an empty file to the open ones and an entry under a new name to the directory, exactly if there is room for it, or is refused with the error of what is short |
| SessionRuns.MountAndRun | FATFS_V0.09/src/ff.c:2008-2949 | from a mount on, every sequence of calls that create and open files, read, write, synchronize and move pointers answers like independent byte streams and a table of unique names, with a creation refused exactly for want of a name, entries or clusters; after a sync with something left to be written the disk holds the file, and at all times the file system sees all files stored that have nothing left to be written; the steps are safe exactly if the extensions of the directory are, and then all images the disk ever had are |
| Formatting.ShiftAligns | FATFS_V0.09/src/ff.c:3638-3648 | the data area starts at an erase block |
| Formatting.AutomaticPlan | FATFS_V0.09/src/ff.c:3556-3653 | with the automatic cluster size, which volumes are formatted, and as what: FAT12 below 128000 sectors, FAT16 from there on, and from 4193664 sectors on FAT32, exactly if 65526 clusters are left behind the aligned data area; with the error otherwise |
| Formatting.LargeIsFat32 | FATFS_V0.09/src/ff.c:3607-3653 | a volume of 100000 clusters or more is formatted with FAT32, for every size of cluster and erase block |
| Formatting.PlanAccepted | FATFS_V0.09/src/ff.c:3607-3728 | the boot sector of a plan is accepted with a sound layout exactly if behind the aligned start of the data area there is room for one cluster and the clusters can be numbered; the layout is the planned one |
| Formatting.AutomaticFits | FATFS_V0.09/src/ff.c:3607-3620 | with the automatic cluster size there are never too many clusters to number |
| MakeFs.MkFs | FATFS_V0.09/src/ff.c:3556-3784 | writes the partition table, boot sector, backup, FATs, root directory and FSInfo sectors that were planned, or returns the error of the plan and writes nothing |
| MakeFs.FormattedMounts | FATFS_V0.09/src/ff.c:3556-3784 | a formatted disk mounts with a sound layout under exactly that condition, with the planned type, cluster count and regions, and the free count in FSInfo is the number of free entries |
| MakeFs.AlignedAway | FATFS_V0.09/src/ff.c:3638-3653 | a formatting whose plan leaves no room for a cluster: an input |
| MakeFs.FormatRefused | FATFS_V0.09/src/ff.c:3556-3784 | formatting that input returns success and writes a disk that mounting refuses |
| FreshVolumes.FormattedIsMountable | FATFS_V0.09/src/ff.c:3733-3784 | under the condition of FormattedMounts, a formatted disk has no dangling entries or links and an empty root directory, so that runs can start on it |
| FreshVolumes.FormatAndRun | FATFS_V0.09/src/ff.c:2008-3784 | formatting, mounting and any sequence of calls in the root directory starts with no files and no entries and answers as in MountAndRun; on FAT16, whose root directory has no chain to extend, every image the disk has from the mount on is safe whatever the calls are |

## Left out

- Directory.Dir.DirNext: links a new cluster before it is zeroed, as the code does, so the steps of an extension are
  not safe in general; the exact condition is in `Extending.ExtendDirectory`.
- Ordering.ImagesAreSafe: nothing is said about FAT12, whose entries can be torn between two sector writes; the start
  clusters of the directories are a parameter, since no sub-directory is created or removed here.
- OpenFiles.PerformAll: that a recorded file is on the disk is proved right after its sync and whenever the window is
  clean; of the images in between it is proved that they show no dangling entry or link, not what each file's contents
  are in them.
- SessionRuns.MountAndRun: one directory, which is given with its chain. Files are created there; overwriting and
  opening existing ones keep a session in order at any point (`SessionRuns.OverwriteInSession`,
  `SessionRuns.OpenInSession`), but are not among the calls of a run, since they need a chain to which nothing else
  leads.
- Ordering.ReleaseIsSafe: requires that no entry names the chain any more, which `Opening.OverwriteFile` achieves by
  emptying the entry first; f_unlink and f_truncate are not part of this model.
- LongNames.PickAll: stops at 253 characters, and LongNames.AllMatchIffSame at 254, because the code refuses or never
  matches longer names although it accepts and stores up to 255.
- Mount.ChkMounted: a boot sector whose sizes wrap around is accepted, as the code does; every later operation
  requires a layout without such sizes, and BootRecords.MountedIsDescribed says nothing about such a boot sector.
- Files.File.FRead: the bytes read are returned as a sequence instead of being stored in the caller's buffer, so
  overlapping buffers are not captured.
- Files.File.FWrite: an error can only mean that the FAT holds an entry equal to 1; nothing is promised about the file
  then, since the code leaves it half updated.
- MakeFs.MkFs: the FDISK partition is always the whole disk; partitions made by f_fdisk are not part of this model.
- Driver failures: a transfer fails only if it addresses a sector the disk does not have. After other failures the
  code leaves objects out of order.
- Multi-sector writes count as one disk image; they transfer file data only.
- The clock is a parameter of the operations that store a time; ff_wtoupper is an arbitrary function that maps only 0
  to 0, and ff_convert does not occur because names are given in Unicode.
- create_name and follow_path: lookup and registration take the prepared short and long name as parameters.
- f_opendir, f_readdir, f_stat, f_unlink, f_mkdir, f_chmod, f_utime, f_rename, f_getfree, f_forward and dir_remove:
  small loops over the operations modelled here, with no property of their own among those proved.
- f_open looking up a path: creating, overwriting and opening start from a prepared name or an entry in the window.
- f_truncate: it frees clusters without writing back or dropping a dirty buffer, so no claim about contents holds.
- f_printf: its result is not a character count.
- The mount ID check of file objects, re-entrancy, file sharing and two file objects for one file.
- Tiny mode, other sector sizes, DBCS code pages, relative paths, several partitions per drive, and erase hints.
