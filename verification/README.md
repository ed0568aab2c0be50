# The FATX storage engine, verified

A Dafny model of libfatx, the C library that reads and writes the file system of the Xbox and the Xbox 360, and of
the independent Rust reader of the same format, with proofs that

* every operation, called as "Left out" asks, keeps a mounted volume proper: all chains disjoint, acyclic and
  END-terminated, every used FAT entry on exactly one of them, every directory terminated and free of duplicate names,
  every chain but the root's owned by exactly one entry, every file's size covered by its chain; and it changes no
  byte of the device outside the partition's FAT and clusters, but for one end marker whose place is stated;
* every operation refines a small update of the volume's inode table, so that what it leaves alone is part of what is
  proved;
* every script of commands on a mounted volume is a run of a small deterministic machine over the inode table: which
  answer each command gives, which bytes it reads, which table it leaves, full volumes included; it is stated for
  every command exactly when it succeeds and what is at its path then; on volumes that libfatx
  formatted the free space is what the table leaves; every node stays reachable unless a directory is moved below
  itself; and writes lay their data over the contents, gaps filled with zeros, unless data was left behind the end of
  a file;
* the Rust reader, opening the same device from its bytes alone, lists the same entries and reads the same bytes, on
  all partitions that both programs lay out alike, and it is stated exactly which those are.

## Layers

`Bytes`, `Endian` and `Codec` are words, byte order and the 64-byte directory entry. `Geometry` and `Partitions` say
where the FAT and the clusters lie, `Superblocks` how both programs find that out from a device. `Volumes` and
`Streams` are the table of classified entries, its chains, and the bytes behind a chain. `Layouts` adds directories,
their slots and the inode table `Abs`: for each first cluster the directory it is in, its attributes, and for a file
all the bytes of its chain.

`FatxFs` is `struct fatx_fs`: device bytes and cursor, the write-back FAT window, the allocator's hint. Its ghost
fields hold the FAT seen through the window, the volume that the device and the window stand for, the layout, and the
device as it was opened. `Valid()` ties them to the bytes; `Mounted()` adds the volume invariant. `Files`, `FileOps`,
`Dirs`, `DirOps`, `Renames` and `Formats` are the operations, each proved against the value level. There `Entries`,
`Rooms`, `Contents`, `Listings` and `Spaces` prove what those updates mean, and `Relayouts` that without their
conditions no layout would do. `Overflows` is about directories that are full and have no end marker.

`Machine` is the machine over inode tables, `Trees` reachability in them, `Slacks` the bytes behind the ends of files
and the contents, and `Laws` what each command's answer means for its caller: what is at which path afterwards. `Runs`
executes commands on `FatxFs` and proves each a step of the machine; `Scripts` are runs whose answers are known
beforehand, and `RoundTrips` puts operations, runs and the Rust reader together.

`RustReader` is the Rust crate's file, directory entry and directory iterator. `Memrchr` and `Paths` are the string
functions of `ext.c`. `Witnesses` holds the inputs on which exact conditions fail.

## Where the code is not what it looks like

Each of these is modelled as the code has it, with the exact condition proved and, after the colon, an input on which
the condition fails:

* When the end marker is in the last slot of its cluster, `fatx_alloc_dir_entry` gives that slot away and writes the
  new marker to the cluster that follows on the device, whatever that belongs to. In a directory's last cluster the
  entry so replaces the only end marker (`Relayouts.LastSlotLoses`); in other clusters creating works exactly if the
  marker does no harm where it falls and the directory has an end behind (`Relayouts.RoomIsExact`):
  `Witnesses.FullRoot`.
* A full directory without end marker is grown by a cluster, but the entry goes to the slot past its old end; it is
  listed exactly if the new cluster follows the old last one on the device (`Overflows.OverflowLists`):
  `Witnesses.UnmarkedRoot`.
* A truncation does not clear what it cuts off, so a later gap reads as zeros only if the slack is zero
  (`Contents.TruncatedSlack`, `Contents.TruncatedContent`, `Contents.WrittenContent`): `Witnesses.SlackComesBack`.
* An empty write past the end, or at the end of a full last cluster, grows the file or its chain
  (`Contents.WrittenContent`, `Contents.WrittenTight`): `Witnesses.EmptyWriteGrows`,
  `Witnesses.EmptyWriteTakesCluster`.
* Renaming an entry to itself removes it (`Renames.Rename`): `Witnesses.SelfRenameRemoves`.
* A directory can be moved or exchanged into one below it and is then out of reach (`Trees.StepKeepsRooted`):
  `Witnesses.MovedIntoItself`.
* Unlinking does not look into a directory; `fatx_rmdir` does (`Relayouts.RemoveNeedsEmpty`):
  `Witnesses.UnlinkedFull`.
* The allocator's hint outlives the file system it came from; out of range, a search of a full table never ends
  (`Volumes.SearchEndsIff`): `Witnesses.HintOutside`.
* `fatx_init_root` ends the root's FAT entry but writes the end markers to cluster 1, so that formatting with the root
  elsewhere makes a file system only if an empty directory is there already (`Formats.EmptyIsExact`,
  `Formats.InitRoot`): `Witnesses.RootElsewhere`.
* The highest index that the FAT accepts has no entry of its own on some partitions with clusters above 8 KiB
  (`Partitions.OpenedIsSound`): `Witnesses.UnsoundPartition`.
* The Rust reader does not count the reserved FAT entry, so the two programs disagree about some layouts
  (`Partitions.LayoutsAgree`): `Witnesses.LayoutsDiffer`, `Witnesses.WidthsDiffer`. The retail partitions are none of
  them (`RoundTrips.RetailPartitions`).
* `ext.c` does not include `limits.h`, so its word search can be compiled to look at half of each word only
  (`Memrchr.SearchIsLast`): `Memrchr.NarrowMisses`. The directory of a path that ends in a slash then comes out right
  exactly if a slash of the right run is seen, or none has to be (`Paths.AnswerIsDirname`): `Paths.WrongDirname`.

## Model

| member | source | states |
|---|---|---|
| Endian.DiskRoundTrip16 | libfatx/fatx_endian.h:69-92 | reading a 16-bit word from disk undoes writing it, and the other way round, in both byte orders |
| Endian.DiskRoundTrip32 | libfatx/fatx_endian.h:69-92 | the same for 32-bit words |
| Endian.DetectionInvertsWriting | libfatx/fatx_endian.h:97-125 | a raw signature word is recognised as a variant exactly when it is the signature written in that variant's byte order |
| Codec.UnpackAfterPack | libfatx/fatx_misc.c:144-194 | a stamp comes back from its packed words reduced to its fields' widths, and unchanged exactly when its year, hour, minute and second fit them |
| Codec.PackAfterUnpack | libfatx/fatx_misc.c:144-194 | packing undoes unpacking for every raw date, for every Xbox 360 time, and for an original Xbox time exactly when its bits 15 and 10 are clear |
| Codec.UnpackAfterPackPair | libfatx/fatx_attr.c:29-75 | the slot order of the two halves is undone for each variant |
| Codec.DecodeAfterEncode | libfatx/fatx_attr.c:80-117 | decoding an encoded entry gives the attributes reduced to their fields' widths |
| Codec.DecodeInvertsEncode | libfatx/fatx_attr.c:80-117 | decode(encode(a)) = a exactly when first cluster and size fit 32 bits and all three stamps are representable |
| Codec.EntryPlaces | libfatx/fatx_attr.c:99-117 | where each field of an entry is on disk, in the byte order and slot order of the variant, and which words stand for a stamp that fits |
| Codec.EncodeInvertsDecode | libfatx/fatx_attr.c:80-117 | encode(decode(b)) = b for a raw 64-byte entry exactly when the name has no NUL, the padding is 0xff and, on the original Xbox, no stamp has bits 15 or 10 set |
| Superblocks.SuperblockRoundTrip | libfatx/fatx_partition.c:129-186 | the fields of a superblock that was written are read back, in either byte order, and its signature gives the byte order away |
| Superblocks.SuperblockPlaces | libfatx/fatx_partition.c:161-186 | the bytes of a superblock: the letters FATX or XTAF, three words in the byte order of the variant, two zero bytes, and 0xff up to 4096 |
| Superblocks.ReadWhereWritten | libfatx/fatx_partition.c:33-156 | opening reads a superblock of a variant exactly where its letters are and it may be of that variant, and takes the words behind them as its fields |
| Superblocks.ProbedIsWritten | libfatx/fatx_partition.c:33-73 | a variant is probed exactly if it, or any, is asked for and the raw signature is the one written in its byte order |
| Superblocks.InitSuperblock | libfatx/fatx_partition.c:78-124 | the variant and fields that opening works with: the words behind the letters of a variant asked for or found, or a new volume's identifier, cluster size and root 1, which only the original Xbox can get |
| Superblocks.OpenDevice | libfatx/fatx.c:38-150 | accepts exactly the devices with a superblock as asked, aligned offset and size, valid sector and cluster sizes and a root in range, and arrives at the layout that size and superblock determine; the size is the one asked for, or for all ones the largest in whole sectors that ends on the device |
| Partitions.LayOut | libfatx/fatx.c:93-150 | the layout: the least 4 KiB multiple that holds one entry per possible cluster and a reserved one, 16-bit entries below 0xfff0 of them, clusters behind |
| Partitions.PowersOfTwo | libfatx/fatx.c:93-150 | the cluster sizes in sectors are the powers of two up to 1024 |
| Partitions.FillsPartition | libfatx/fatx.c:115-150 | a large enough partition: the table is the least in pages for one entry more than the clusters that would fit without it, the clusters follow it and one another, and there is no space for another one |
| Partitions.CutUpUnique | libfatx/fatx.c:115-150 | there is no other layout like it |
| Superblocks.WriteSuperblock | libfatx/fatx_partition.c:161-186 | opening the device then finds, by probing or on request, exactly the variant and fields written, no other variant, and every byte elsewhere is as it was |
| Superblocks.FieldsAgree | rust/fatx/src/fs.rs:31-47 | the Rust reader takes the same fields from every superblock |
| Superblocks.DetectedIsProbed | rust/fatx/src/fs.rs:151-169 | detecting the variant and comparing it with the one asked for accepts what libfatx accepts |
| Superblocks.RustOpen | rust/fatx/src/fs.rs:120-215 | what the Rust reader accepts, and its layout, sized without the reserved entry and with a 32-bit entry count; the size is the one asked for, or for all ones the largest in whole sectors that ends on the device |
| Superblocks.RestAgrees | rust/fatx/src/fs.rs:120-215 | for the rest of the device both programs arrive at one size exactly if there is a rest |
| Superblocks.CarriedIsChosen | libfatx/fatx_partition.c:33-156 | opening a device that carries a written superblock finds that one, unless the other variant is asked for |
| Superblocks.RustArrives | rust/fatx/src/fs.rs:170-196 | on a partition that both programs lay out alike the Rust reader arrives at libfatx's geometry and at no other |
| Partitions.OpenedIsSound | libfatx/fatx.c:93-150 | a large enough partition is sound (table has room for every index the library accepts, clusters inside the partition, every cluster number a data value) if and only if its last entry is not one too many; always with clusters up to 8 KiB or a table that does not end on a page boundary |
| Partitions.MinimumSize | libfatx/fatx.c:115-150 | 16 KiB and four clusters are always large enough |
| Partitions.LargeIsSound | libfatx/fatx.c:93-150 | so every accepted partition of that size is sound with its root in cluster 1, unless its clusters exceed 8 KiB and its table ends on a page boundary |
| Partitions.ClustersApart | libfatx/fatx_fat.c:312-333 | data clusters lie behind the FAT, inside the partition, and pairwise apart |
| Partitions.LayoutsAgree | rust/fatx/src/fat.rs:63-84 | the two programs lay a partition of fewer than 2^32 clusters out alike if and only if it does not have 0xffef clusters and its entries do not end on a page boundary |
| FatxFs.LoadAfterStore | libfatx/fatx_fat.c:193-270 | an entry stored in the table's width and byte order is loaded back, cut to that width |
| FatxFs.FlushKeepsFat | libfatx/fatx_fat.c:113-136 | writing the window back leaves every logical entry as it was and makes the device agree with the window |
| FatxFs.CleanWindowIsTransparent | libfatx/fatx_fat.c:141-188 | a window that holds what the device holds does not change the logical table |
| FatxFs.StoreUpdatesFat | libfatx/fatx_fat.c:237-270 | storing into the window updates exactly one logical entry |
| FatxFs.RepWrite | libfatx/fatx_fat.c:312-333 | a write inside one cluster changes that cluster's content and no FAT entry, cached or not |
| FatxFs.RepIsVolumeOf | libfatx/fatx.c:179-188 | without unwritten cache the device bytes alone determine the table and all contents |
| FatxFs.MarkersClassify | libfatx/fatx_fat.c:275-307 | end, available and media markers and every cluster number survive the entry width and are classified as such |
| FatxFs.FramedWrite | libfatx/fatx_fat.c:312-333 | a write inside the clusters changes no byte of the device outside the FAT and the clusters |
| FatxFs.FramedStray | libfatx/fatx_dir.c:350-360 | the end marker of a directory that fills the last cluster is the one write that leaves the clusters, and it changes nothing beyond its slot behind them |
| FatxFs.Fs.SeekCluster | libfatx/fatx_fat.c:312-333 | succeeds exactly for indices it accepts, number 0 with its wrapped arithmetic included, whose start is inside the partition, and puts the cursor there |
| FatxFs.Fs.FlushFatCache | libfatx/fatx_fat.c:113-136 | the volume and every other field stay; the window becomes clean |
| FatxFs.Fs.PopulateFatCache | libfatx/fatx_fat.c:141-188 | fails exactly for indices out of range; otherwise the window covers the index and the logical table is unchanged |
| FatxFs.Fs.ReadFat | libfatx/fatx_fat.c:193-232 | returns the logical entry of the index, fails exactly out of range |
| FatxFs.Fs.WriteFat | libfatx/fatx_fat.c:237-270 | updates exactly the logical entry of the index, cut to the entry width |
| FatxFs.Fs.CloseDevice | libfatx/fatx.c:179-188 | afterwards the device bytes alone stand for the volume |
| FatxFs.Fs.GetNextCluster | libfatx/fatx_fat.c:338-358 | follows a data entry, fails on anything else |
| FatxFs.Fs.MarkClusterAvailable | libfatx/fatx_fat.c:363-368 | exactly that entry becomes available |
| FatxFs.Fs.MarkClusterEnd | libfatx/fatx_fat.c:373-385 | exactly that entry becomes an end of chain |
| FatxFs.Fs.FreeClusterChain | libfatx/fatx_fat.c:390-417 | terminates on every table, cyclic or wild ones included, with the table that the specification function gives |
| Volumes.FreeChainFreesReachable | libfatx/fatx_fat.c:390-417 | freeing from an index makes exactly the indices reachable over data links available and keeps every other entry, on every table |
| Volumes.FreeChainTail | libfatx/fatx_fat.c:390-417 | on a proper chain that is the rest of the chain |
| FatxFs.Fs.FindFree | libfatx/fatx_fat.c:436-465 | finds the first available index in cyclic order from the hint within numClusters - 2 probes, or proves that there is none; from a hint out of range as well, when something is free |
| Volumes.NextFreeIsNearest | libfatx/fatx_fat.c:436-465 | that index is the nearest of all available ones, going round from the hint, and the only such one |
| FatxFs.Fs.AllocCluster | libfatx/fatx_fat.c:422-485 | takes exactly that index, ends its entry, zeroes it when asked, keeps the hint in range; fails exactly when nothing is available |
| Volumes.SearchEndsIff | libfatx/fatx_fat.c:426-448 | on a full table the search comes back to its start, and ends, if and only if the hint was in range |
| FatxFs.Fs.AttachCluster | libfatx/fatx_fat.c:490-526 | links a cluster behind an end entry and ends it, refuses any other tail; the exact table also for targets that are no cluster |
| Volumes.ReshapeKeepsChains | libfatx/fatx_fat.c:387-526 | growing, cutting, creating or freeing one chain keeps all chains disjoint, acyclic, END-terminated and covering every used entry |
| Streams.AttachGrows | libfatx/fatx_fat.c:490-526 | an allocated and attached cluster continues the chain, and its bytes the stream |
| Streams.CutIsRefit | libfatx/fatx_file.c:384-398 | freeing behind the m-th cluster and ending the chain there leaves the first m clusters' bytes and frees exactly the others |
| Streams.ClustersForIsCeiling | libfatx/fatx_file.c:366-383 | the chain length of a size is max(1, ceil(size / bytesPerCluster)) |
| Streams.StreamWrite | libfatx/fatx_file.c:253-264 | a write into the k-th cluster of a chain splices the chain's bytes at k clusters plus the offset |
| Files.FindCluster | libfatx/fatx_file.c:28-86 | reaches the cluster of an offset, growing the chain by zeroed clusters only when asked and needed; fails past the size, or at the chain's end, or when full |
| Files.ReadChain | libfatx/fatx_file.c:118-198 | puts min(size, fileSize - offset) bytes of the stream at the offset at the start of the buffer, however short the device's transfers are |
| Files.ResizeChain | libfatx/fatx_file.c:358-398 | the new chain is the old one's prefix, or the old one followed by zeroed clusters, of exactly the length for the size; when full, what was reached |
| Files.WriteChain | libfatx/fatx_file.c:228-295 | the stream becomes the old one, zero-padded to the new chain, with the data over it; when full, with the part written |
| FileOps.Truncate | libfatx/fatx_file.c:347-403 | refines an update of one node of the inode table: size and bytes of exactly the file named, nothing else; out of space, its chain has all that was free |
| FileOps.Read | libfatx/fatx_file.c:99-198 | fills the start of the buffer with what the inode table's node reads back at the offset, and changes nothing else |
| FileOps.WriteInside | libfatx/fatx_file.c:228-308 | the part of a write once the offset is inside the file |
| FileOps.Write | libfatx/fatx_file.c:200-308 | refines an update of one node: gap closed, data laid over, size raised; out of space, exactly how far that came; no other file changes in any case |
| FileOps.AdoptChain | libfatx/fatx_file.c:347-403 | reshaping one file's chain keeps the volume invariant and every other node |
| Contents.TruncatedContent | libfatx/fatx_file.c:347-403 | truncating cuts a file or pads it with zeros if and only if the slack it takes in is zero |
| Contents.TruncatedSlack | libfatx/fatx_file.c:384-398 | the slack behind the end stays zero if and only if the bytes cut off within the last cluster are zero |
| Contents.TruncatedTight | libfatx/fatx_file.c:366-398 | after a truncation the chain is exactly as long as the size needs |
| Contents.WrittenContent | libfatx/fatx_file.c:200-308 | a write lays the data over the file and fills the gap with zeros if and only if it stays below 4 GiB, is not empty past the end, and the skipped slack is zero |
| Contents.ReadAfterWrite | libfatx/fatx_file.c:200-308 | what was written is read back, whatever the slack held |
| Contents.ReadAroundWrite | libfatx/fatx_file.c:200-308 | reads elsewhere in the file see the old bytes, after writes behind its end as well, whatever the slack held |
| Contents.WrittenKeepsSlack | libfatx/fatx_file.c:215-226 | writes keep the slack zero |
| Contents.WrittenTight | libfatx/fatx_file.c:215-226 | after a write the chain is exactly as long as the size needs, except after an empty write at the end of a file that fills its last cluster |
| Dirs.ReadDir | libfatx/fatx_dir.c:181-246 | tells an end marker, a deleted entry and a live entry apart and decodes the latter |
| Dirs.NextDirEntry | libfatx/fatx_dir.c:134-176 | moves to the next slot of the chain, over cluster boundaries, and fails exactly behind the last |
| Dirs.WriteDir | libfatx/fatx_dir.c:251-304 | writes one encoded entry at the cursor, wherever that lies on the device, and nothing else |
| Dirs.MarkDirEntry | libfatx/fatx_dir.c:397-441 | changes the first byte of one entry, also when the cursor is one past its cluster's last slot |
| Dirs.Find | libfatx/fatx_attr.c:122-186 | finds the live entry of a name, or proves that the directory has none |
| Dirs.SetAttr | libfatx/fatx_attr.c:189-214 | overwrites exactly the named entry |
| Dirs.AllocDirEntry | libfatx/fatx_dir.c:309-382 | all three ends of its scan: a deleted slot reused, the end marker moved one slot on wherever that is, or a directory without marker grown by a cluster while the slot past its old end is returned |
| Dirs.GrowDirectory | libfatx/fatx_dir.c:363-382 | the new cluster, the next free one from the hint, is zeroed, attached and marked |
| Overflows.OverflowLists | libfatx/fatx_dir.c:363-382 | in a directory that is full and has no end marker the new entry is listed behind the old ones if and only if the cluster taken follows its last one on the device |
| Overflows.CreateUnmarked | libfatx/fatx_dir.c:463-516 | creating there: the two clusters taken are the next free ones from the hint, the exact volume, and by where the second one is whether the entry is listed |
| Layouts.RewriteSlot | libfatx/fatx_dir.c:251-304 | overwriting a live entry with another proper one for the same chain keeps the volume invariant |
| Layouts.StoreEntryAttr | libfatx/fatx_attr.c:189-214 | and changes exactly that node of the inode table |
| Entries.AddEntry | libfatx/fatx_dir.c:463-516 | a new entry for a fresh cluster keeps the invariant and adds one node |
| Entries.RemoveEntry | libfatx/fatx_dir.c:521-586 | freeing a chain and deleting its entry keeps the invariant and removes one node |
| Relayouts.RemoveNeedsEmpty | libfatx/fatx_dir.c:521-586 | after unlinking, some layout without new directories makes the volume proper if and only if there was nothing in what was unlinked |
| Rooms.CreatedKeepsInv | libfatx/fatx_dir.c:309-382 | where creating works, in its cluster or with the marker in the next, the volume stays proper and gets exactly one node |
| Relayouts.LastSlotLoses | libfatx/fatx_dir.c:350-360 | with the end marker in the last slot of a directory's last cluster the new entry replaces it, and no layout without directories of its own makes the volume proper again |
| Relayouts.RoomIsExact | libfatx/fatx_dir.c:309-382 | creating gives, in some layout, a proper volume with the old nodes and the new one if and only if the slot is free, or the marker moves on within its cluster, or it does no harm in the next cluster on the device and the directory ends behind; for directories of any length |
| Entries.SwapEntries | libfatx/fatx_attr.c:216-265 | rewriting two entries crosswise keeps the invariant and exchanges two nodes' directories and names |
| DirOps.PlaceEntry | libfatx/fatx_dir.c:499-512 | the volume after the end marker was moved and after the entry was written, room or not, and whether the marker left the clusters |
| DirOps.CreateDirent | libfatx/fatx_dir.c:463-516 | the exact volume after each of its device writes, room or not and whether or not the name is taken; where creating works one new node, found under its name, empty, with the attributes asked for and the time in all three stamps; on failure the allocated cluster is given back and the inode table unchanged |
| DirOps.Mknod | libfatx/fatx_file.c:313-342 | adds one empty file: under its name there is a node of size 0 with attribute byte 0, its own cluster of zeros and the time, as far as the fields hold it, in all three stamps; fails exactly for a taken or overlong name or without a free cluster, and then adds nothing |
| DirOps.Unlink | libfatx/fatx_dir.c:521-586 | marks exactly the named entry, full directories included, and makes exactly its chain's clusters available; with nothing in it, removes exactly that node and leaves room for another entry |
| DirOps.Mkdir | libfatx/fatx_dir.c:591-628 | adds one empty directory, with the directory attribute and the time in all three stamps, its cluster an end marker and zeros; fails exactly for a taken or overlong name or without a free cluster |
| DirOps.CheckEmpty | libfatx/fatx_dir.c:651-677 | the scan tells an empty directory from one with entries |
| DirOps.Rmdir | libfatx/fatx_dir.c:633-683 | removes exactly an empty directory and refuses files and directories with entries |
| Listings.ListingIsTable | libfatx/fatx_dir.c:181-246 | a directory lists exactly the nodes the inode table has in it |
| Listings.MarkerStep | libfatx/fatx_dir.c:350-360 | moving the end marker on changes no listing |
| Listings.EntryStep | libfatx/fatx_dir.c:507-512 | writing the entry adds it, in its place, to its directory's list alone |
| Listings.CreateStepwise | libfatx/fatx_dir.c:463-516 | after every device write that the create method makes every directory lists exactly the old or exactly the new entries |
| Listings.RewriteStep | libfatx/fatx_dir.c:251-304 | overwriting a live entry changes that one item of the list |
| Listings.UnlinkStepwise | libfatx/fatx_dir.c:521-586 | freeing the chain changes no listing and the deletion mark takes exactly one entry out |
| Listings.ReadAll | libfatx/fatx_dir.c:134-246 | reading a directory through gives its listing, and an error exactly when no end marker is met |
| Renames.ExchangeIsInvolution | libfatx/fatx_attr.c:216-265 | exchanging twice is the identity on inode tables |
| Renames.AtomicSwap | libfatx/fatx_attr.c:216-265 | exchanges the two nodes; when the first write fails, or the second fails and the restoring one succeeds, the inode table is as before |
| Renames.SwapWrites | libfatx/fatx_attr.c:241-258 | the same for its writes, whichever of them fail |
| Renames.MoveOver | libfatx/fatx_file.c:477-491 | a rename over an existing name in another directory: the target's chain is freed, exactly |
| Renames.MoveToNew | libfatx/fatx_file.c:457-464 | a rename to a new name in another directory; fails exactly when no cluster is free for the stand-in file |
| Renames.SetName | libfatx/fatx_file.c:465-470 | a rename to a new name in the same directory |
| Renames.ReplaceHere | libfatx/fatx_file.c:492-498 | a rename over an existing name in the same directory; renaming an entry to itself removes it |
| Renames.RenameOver | libfatx/fatx_file.c:473-498 | all renames to a name that exists |
| Renames.Rename | libfatx/fatx_file.c:408-511 | succeeds exactly where there is such an entry, the names are short, and the target is one to exchange, another one to replace, or a free name that is in the same directory or finds a cluster; then the node, with all it had, is under the new name; the replaced one goes with exactly its clusters, an exchange crosses two, no_replace and every error leave the table; the self-rename removes the entry |
| Formats.InitFat | libfatx/fatx_fat.c:32-75 | the chunked wipe makes every entry available and touches no cluster |
| Formats.EmptyIsExact | libfatx/fatx_fat.c:80-111 | a blank table with the root ended and the end markers in cluster 1 is a proper volume in some layout if and only if the root is cluster 1 or its cluster already holds an empty directory |
| Formats.InitRoot | libfatx/fatx_fat.c:80-111 | entry 0 becomes the media's and the root's an end, cluster 1 is filled with end markers whatever the root is, and the rest stays; a mounted, empty file system exactly under that condition, and no layout at all otherwise |
| Formats.LargeIsFormattable | libfatx/fatx_disk.c:228-263 | every partition of 16 KiB and four clusters on the device can be formatted, unless its clusters exceed 8 KiB and its table ends on a page boundary |
| Formats.FormatPartition | libfatx/fatx_disk.c:228-263 | opens exactly what libfatx opens, whatever root its superblock names; leaves a mounted, empty file system if and only if the root is ready on the device, the superblock written and everything outside untouched |
| Formats.Remount | libfatx/fatx.c:179-188 | a device closed after any history and opened again is the same mounted volume |
| Spaces.SpaceConserved | libfatx/fatx_fat.c:390-526 | available clusters and the lengths of all chains always add up to all data clusters |
| Spaces.FreeSpace | libfatx/fatx_file.c:347-403 | free space is all clusters less one per directory and max(1, ceil(size / bytesPerCluster)) per file |
| Machine.StepDeterministic | libfatx/fatx_file.c:99-511 | with the same space a command has one answer and leaves one inode table, up to the number of a new file or directory |
| Machine.StepKeepsTight | libfatx/fatx_file.c:215-398 | every command that does not run out of space leaves every chain as long as its file needs |
| Machine.TightFree | libfatx/fatx_file.c:347-403 | and then, with one-cluster directories, free space is all clusters less one per directory and max(1, ceil(size / bytesPerCluster)) per file |
| Trees.MoveKeepsRooted | libfatx/fatx_file.c:457-498 | after moving a node everything is reachable from the root if and only if the target is not below it |
| Trees.ExchangeKeepsRooted | libfatx/fatx_attr.c:216-265 | the same for both nodes of an exchange |
| Trees.StepKeepsRooted | libfatx/fatx_file.c:408-511 | every command keeps every node reachable, but for a successful move or exchange that puts a directory below itself, and that one never does |
| Slacks.StepKeepsSlack | libfatx/fatx_file.c:200-403 | with zero slack everywhere, a command leaves it so if and only if it does not cut nonzero bytes within the last cluster it keeps, nor run out of space with nonzero data already behind the end of the file |
| Slacks.StepContents | libfatx/fatx_file.c:200-511 | and every command that does not run out of space lays data over the content it is about, the gap filled with zeros, or cuts or pads it with zeros, and leaves all other contents |
| Laws.NotRunExactly | libfatx/fatx_file.c:99-511 | the machine does not run a command, and changes nothing, exactly if its directory is not there or its caller owes a check, each of them spelled out |
| Laws.RemoveLaw | libfatx/fatx_dir.c:521-683 | removing: exactly when it succeeds, finds nothing or finds the directory not empty; after a success nothing is at the path and one node that held nothing is gone, otherwise nothing has changed |
| Laws.RemoveFrees | libfatx/fatx_fat.c:390-417 | and as many clusters are free again as that node held |
| Laws.MakeLaw | libfatx/fatx_dir.c:463-628 | making: exactly when it succeeds; then exactly one node is at the path, new, empty, with its stamps, and without it the table is the old one |
| Laws.MakeTakes | libfatx/fatx_fat.c:422-485 | and one cluster less is free |
| Laws.ReadLaw | libfatx/fatx_file.c:99-198 | reading gives the slice of the content at the path, byte by byte, exactly if a file is there, and changes nothing |
| Laws.WriteLaw | libfatx/fatx_file.c:200-308 | writing: the answer is the length exactly if the clusters up to the end of the data are there; either way one file has changed, with as much of the data as there is space for, its other bytes, and the size and chain length stated |
| Laws.ResizeLaw | libfatx/fatx_file.c:347-403 | truncating: success exactly if the clusters are there; either way one file has changed, with its old bytes and zeros behind, and the size and chain length stated |
| Laws.MoveLaw | libfatx/fatx_file.c:408-511 | moving: exactly when it succeeds or finds nothing; then the node is under the new name with all it had, and nothing, or the other node of an exchange, under the old one, and of the rest only what was replaced is gone |
| Laws.MovePaths | libfatx/fatx_file.c:408-511 | and where no directory went below itself the new path leads to it and the old one to nothing, or to the other node |
| Spaces.AllocConserved | libfatx/fatx_fat.c:390-526 | where cluster 1 is the root's or nobody's, the clusters that can be allocated and all chains always add up |
| Runs.FreeIsFree | libfatx/fatx_fat.c:390-526 | with one-cluster directories the clusters that can be allocated are those that the inode table leaves, wherever the root is |
| Runs.RoomIsRoom | libfatx/fatx_dir.c:309-360 | in a directory of one cluster there is room at the slot where the scan stops if and only if fewer entries than slots but one are in it |
| Runs.Execute | libfatx/fatx_file.c:99-511 | any command on any mounted volume, with directories of any length, is exactly a step of the machine, given the checks its caller owes: its answer, the bytes it read, and the inode table; free clusters and chains together stay as many |
| Runs.Run | libfatx/fatx_file.c:99-511 | every script of commands, of any length and past full volumes, is a run of the machine; the volume stays mounted and its table proper, and with one-cluster directories the space is always what the table leaves |
| Runs.RunKeepsTight | libfatx/fatx_file.c:347-403 | as long as no command of a run ran out of space, every chain is as long as its file needs |
| Runs.RunKeepsRooted | libfatx/fatx_file.c:408-511 | as long as no directory was moved below itself, every node is reachable |
| Runs.RunKeepsSlack | libfatx/fatx_file.c:200-403 | as long as no command of a run left data behind the end of a file, the slack of all files is zero |
| Runs.RunContents | libfatx/fatx_file.c:200-403 | and every command of the run that did not run out of space changed at most the content it was about: a write laid its data over it, a gap filled with zeros, a truncation cut or zero-padded it |
| Runs.FormatAndRun | libfatx/fatx_disk.c:228-263 | from the parameters of fatx_disk_format_partition on, for every root that is ready: the run starts with the empty table; space, reachability and contents as above, and of the device only superblock, FAT and clusters changed |
| Scripts.FileLifeRun | libfatx/fatx_file.c:99-342 | a run that makes a file, writes, reads and removes it and looks for it again: every answer, whatever the space, and in the end the table and the free space are the first ones |
| Scripts.FileMovedRun | libfatx/fatx_file.c:408-511 | a run that makes, writes and moves a file and reads both names: every answer; across directories the move succeeds exactly if a cluster is left |
| Scripts.LiveFile | libfatx/fatx_file.c:99-342 | the first of these executed on a mounted volume |
| Scripts.MoveFile | libfatx/fatx_file.c:408-511 | the second |
| RoundTrips.WriteThenRead | libfatx/fatx_file.c:99-308 | reading after a write returns the data |
| RoundTrips.ExchangeTwice | libfatx/fatx_file.c:477-480 | two exchanges leave table and FAT as they were |
| RoundTrips.RenameAndBack | libfatx/fatx_file.c:408-511 | renaming to a free name and back succeeds twice, within one directory always and between two exactly if a cluster is free, with nothing under the old name and the same bytes under the new one in between, and leaves table and FAT as they were |
| RoundTrips.CreateThenUnlink | libfatx/fatx_file.c:313-342 | creating and unlinking a file gives back every cluster |
| RoundTrips.MakeThenList | rust/fatx/src/dir.rs:131-240 | a file that libfatx makes is listed by the Rust reader under its name, without bytes and attributes, with the time of its making in all three stamps |
| RoundTrips.RetailPartitions | libfatx/fatx_disk.c:22-40 | the retail partitions follow each other on the disk, can all be formatted with sectors of either size, and are laid out alike by both programs |
| RoundTrips.RetailGeometry | libfatx/fatx.c:115-150 | the retail partitions in figures: table sizes, cluster counts and where cluster 1 is |
| RoundTrips.RunThenRust | rust/fatx/src/file.rs:64-132 | formatting, any script, and then the Rust reader on the device bytes alone: it reads the bytes that the last inode table of the run has at that path |
| RustReader.ClassifyAgrees | rust/fatx/src/fat.rs:27-53 | both programs classify every raw entry alike |
| RustReader.EntriesAgree | rust/fatx/src/dir.rs:131-240 | every entry with a proper name length reads the same in both; names agree if and only if there is no NUL; they differ about directories exactly for volume labels |
| RustReader.PairsAgree | rust/fatx/src/datetime.rs:10-60 | stamps decode alike |
| RustReader.KindsAgree | rust/fatx/src/dir.rs:131-138 | end, deleted and valid entries are told apart alike |
| RustReader.RustFs.Entry | rust/fatx/src/fat.rs:86-115 | reading the table in memory gives the entry of the volume on the device |
| RustReader.File.Seek | rust/fatx/src/file.rs:32-62 | from the start, the end or the current position: the sum, where it fits 32 bits; refused exactly if it is negative, or from the end beyond 64 bits; in general the sum saturates from the current position, wraps from the end, and is cut to 32 bits |
| RustReader.File.MapCluster | rust/fatx/src/file.rs:82-106 | the cached cluster is the one a fresh walk finds, forwards and backwards |
| RustReader.File.Read | rust/fatx/src/file.rs:64-132 | fills the start of the buffer with the bytes at the position, as far as the file goes, leaves the rest of the buffer and advances, with short device reads |
| RustReader.ReadScript | rust/fatx/src/file.rs:32-132 | every sequence of absolute, relative and end-relative seeks and of reads, in any order, gives the positions and bytes of a plain cursor over the content |
| RustReader.EndIsStart | rust/fatx/src/file.rs:32-62 | in such a script a seek from the end goes where the one from the start to that place goes |
| RustReader.CurrentAdds | rust/fatx/src/file.rs:32-62 | seeks from the current position add up |
| RustReader.RefusedStays | rust/fatx/src/file.rs:32-62 | exactly which seeks are refused, and that they leave the position |
| RustReader.LastBytes | rust/fatx/src/file.rs:32-132 | n bytes back from the end, and reading n, gives the last n bytes of the content; reading from the start in two pieces gives all of it |
| RustReader.DirectoryEntryIterator.Next | rust/fatx/src/dir.rs:262-307 | delivers the slots of the chain in order and fails behind the last |
| RustReader.IterateAll | rust/fatx/src/dir.rs:262-317 | on every chain libfatx can scan the iterator lists what libfatx lists and fails where it fails |
| RustReader.CloseAndRustOpen | rust/fatx/src/fs.rs:120-215 | opened from the bytes that libfatx left, with the geometry it computes itself, the Rust reader has the volume that libfatx had |
| RustReader.HandOverFile | rust/fatx/src/file.rs:64-132 | it reads from a file what fatx_read reads from it |
| RustReader.HandOverDirectory | rust/fatx/src/dir.rs:262-317 | it iterates a directory to the end and lists the entries that libfatx lists |
| Memrchr.MagicBits | libfatx/ext.c:178-179 | the arithmetic that builds the holes gives bits 8, 16, ..., 56 and 63 |
| Memrchr.TestMissesNothing | libfatx/ext.c:227-240 | the word test is nonzero for every word that holds the byte among those compared after it |
| Memrchr.SearchWord | libfatx/ext.c:227-263 | one word: the last compared byte that matches, none if none does |
| Memrchr.Search | libfatx/ext.c:146-277 | the last match among the bytes it compares, for every length and alignment and both values of LONG_MAX |
| Memrchr.SearchIsLast | libfatx/ext.c:146-277 | with a 64-bit LONG_MAX that is the naive last occurrence; with the 32-bit fallback if and only if that occurrence is a byte it compares |
| Memrchr.SkippedAre | libfatx/ext.c:184-263 | not compared are, with the fallback, exactly the upper halves of the aligned words inside the text |
| Memrchr.NarrowMisses | libfatx/ext.c:125-127 | with the fallback a match in the upper half of a word is missed |
| Paths.ExtBasename | libfatx/ext.c:39-82 | the last component, "/" for slashes only, "." for nothing, an error for overlong names |
| Paths.BasenameIsLast | libfatx/ext.c:39-82 | for every path that is its last component, read from the left, refused from 1024 bytes on |
| Paths.ExtDirname | libfatx/ext.c:302-348 | for every path, address and value of LONG_MAX: the path is cut in place before the run of slashes that the search finds, or "." is the answer |
| Paths.AnswerIsDirname | libfatx/ext.c:302-348 | that is the directory part always with a 64-bit LONG_MAX, and with the 32-bit fallback if and only if the slash seen is in the right run, agreeing about a leading pair, or none is seen and the directory is "." |
| Paths.DirnameIsRest | libfatx/ext.c:302-348 | for every path with a component the directory part has all components but the last and starts at the root if the path does, or is "." |
| Paths.SplitRejoins | libfatx/ext.c:39-348 | for absolute paths with a component, the directory's components and the last one are the path's components |
| Paths.NoComponents | libfatx/ext.c:39-348 | a path has no component exactly when it is empty or all slashes |
| Witnesses.UnsoundPartition | libfatx/fatx.c:93-150 | 33546240 bytes in clusters of 16 KiB are accepted, and the highest index accepted has no FAT entry |
| Witnesses.LayoutsDiffer | rust/fatx/src/fs.rs:170-196 | 32 MiB in clusters of 16 KiB: the Rust reader has the clusters 4 KiB before libfatx |
| Witnesses.WidthsDiffer | rust/fatx/src/fat.rs:63-84 | 0xffef clusters: 32-bit entries for libfatx, 16-bit ones for the Rust reader |
| Witnesses.HintOutside | libfatx/fatx_fat.c:426-448 | a hint of 9 in a file system of 5 clusters is never probed |
| Witnesses.SlackComesBack | libfatx/fatx_file.c:384-398 | a byte cut off is back when the file grows or is written past its end |
| Witnesses.EmptyWriteGrows | libfatx/fatx_file.c:215-226 | an empty write at offset 4 of an empty file makes it 5 bytes long |
| Witnesses.EmptyWriteTakesCluster | libfatx/fatx_file.c:215-226 | an empty write at the end of a file that fills its cluster takes a second one |
| Witnesses.SelfRenameRemoves | libfatx/fatx_file.c:477-498 | on every table: renaming a file or empty directory to itself removes it and answers that it is not there |
| Witnesses.MovedIntoItself | libfatx/fatx_file.c:457-464 | a directory moved into itself: a successful step from a rooted table to one that is not |
| Witnesses.FullRoot | libfatx/fatx_dir.c:350-360 | a root directory with seven files in eight slots, a free cluster and a new name: creating leaves no layout |
| Witnesses.UnlinkedFull | libfatx/fatx_dir.c:521-586 | a directory with a file in it: unlinking it leaves no layout |
| Witnesses.UnmarkedRoot | libfatx/fatx_dir.c:363-382 | a full root directory without end marker, all other clusters free: the file takes cluster 2, the directory cluster 3, and the entry is not listed |
| Witnesses.RootElsewhere | libfatx/fatx_fat.c:80-111 | the root in cluster 2, where other bytes are: formatting leaves no layout |
| Paths.WrongDirname | libfatx/ext.c:302-348 | a path of 17 bytes whose directory comes out as "/" |

## Left out

- Path walking: `fatx_open_dir` compares intermediate components as prefixes and takes running off a chain for success; the operations take a directory's first cluster and a name instead, and Runs.OpenPath looks every component up by its whole name.
- Device files: `FILE*` is a byte sequence with a cursor; single bytes may be transferred short, whole items are transferred or fail at the end of the device. Other read and write errors appear only in the swap, where the rollback needs them; a zeroing write is taken to succeed.
- Memory: the cached window, `struct fatx_attr` and data to be written are values, so aliasing among them and allocation failure are not modelled.
- Integer types: offsets and counts are unbounded except where the code's width matters, that is entries, sizes on disk, the cluster count, seek positions and date fields; the `int` results that carry byte counts are not cut.
- FatxFs.Fs.FindFree: asks that the search ends, that is, that the hint is in range or a cluster is free; without that it does not terminate (Volumes.SearchEndsIff).
- FatxFs.Fs.AllocCluster: asks the same, and its zeroing write does not fail.
- Dirs.ReadDir: asks for name lengths up to 42; the C function copies longer ones past the end of its buffer.
- Dirs.Find: asks for a directory with an end marker; scans without one are in Dirs.AllocDirEntry, Overflows.CreateUnmarked and Listings.ReadAll.
- Dirs.SetAttr: asks for an end marker as well.
- DirOps.CreateDirent: asks for an end marker as well; Overflows.CreateUnmarked is the same function without one.
- DirOps.Mknod: asks that creating works whichever free cluster is taken and that no end marker leaves the clusters; without that the volume left is stated by DirOps.CreateDirent, and what can become of it by Relayouts.RoomIsExact.
- DirOps.Mkdir: asks the same.
- FileOps.Truncate: is not modelled on the name of a directory; the library does not stop a caller from that.
- FileOps.Read: is not modelled on the name of a directory either.
- FileOps.Write: nor is writing.
- Renames.MoveOver: asks that a directory to be replaced is empty; removing one that is not is stated by DirOps.Unlink and Relayouts.RemoveNeedsEmpty.
- Renames.ReplaceHere: asks the same.
- Renames.RenameOver: asks the same, unless it exchanges.
- Renames.MoveToNew: asks for room in the target directory, as DirOps.Mknod does.
- Renames.Rename: asks for both, and takes two directories to be the same exactly if they have the same first cluster, where the C function compares the spelling of paths.
- Formats.FormatPartition: asks that the partition as opened is sound and lies on the device; Formats.LargeIsFormattable says for which new partitions it is so.
- Runs.Execute: makes the checks that its caller owes and answers NotRun where one fails; room for an entry is a free slot, or the end marker's unless it is the last of its cluster. It asks that the first cluster is the root directory's or nobody's, which the allocator never hands out.
- Runs.Run: asks the same of the first cluster.
- Runs.FormatAndRun: asks that formatting makes a file system, which Formats.FormatPartition says exactly when it does.
- RoundTrips.RunThenRust: asks for a partition that both programs lay out alike, with a root that both accept and the 512-byte sectors of the Rust reader.
- RustReader.File.Read: asks for a position inside the file; past it the subtraction in the code wraps or panics.
- Scripts.LiveFile: asks for one-cluster directories, where the space follows from the table, and for room in the directory; so does Scripts.MoveFile.
- Time: `localtime`, `mktime` and the clock are a parameter; `fatx_utime`, which overwrites an entry as Dirs.SetAttr does, is not modelled.
- The refurbishment record, the FUSE driver, the GUI, the Python binding, command line tools, logging, locks, read-only mounts and big-endian hosts.
- Rust path normalisation, UTF-8 checks of names, and error values.
