# Proofs about FatFs, rdline and TinyJS as shipped with this firmware

A Dafny model of the three parts of the repository that carry state and can lose data, and proofs about it:

- the FAT file system (`ext/fatfs/src/ff.c`): sector window, FAT packing, cluster allocation, open files, directories,
  mounting, free space, fast seek;
- the serial line editor (`os/various/rdline.c`), together with the terminal on the other end of the wire;
- the script interpreter (`ext/tinyjs/TinyJS.cpp`): lexer, JSON printing and evaluation of literals, reference counts.

Code that changes things in place is modelled in place: `Volume`, `File`, `Directory`, `Editor`, `Lexer` and `Graph` are
classes, window, buffers and tables are arrays, loops are loops. Each method is proved against a function or relation on
plain values, and the promises of the code are lemmas about those values. Numbers are unbounded in Dafny, so DWORD and
BYTE wrap-around is written out where the code relies on it or suffers from it; C's bit operators are defined digit by
digit (`Bits`).

How the main statements build on each other:

1. `Window` has the *logical disk*: the disk with the dirty window written over it. `FatAccess` shows that get_fat and
   put_fat read and update one index of an abstract table, `Allocator` what create_chain and remove_chain do to that
   table for every table, and `ChainRuns` that every run keeps it a family of disjoint terminated chains.
2. `OpenFile` adds the private sector buffer: a file's bytes are those of its chain on the logical disk with the dirty
   buffer on top. f_read, f_write, f_lseek, f_sync and f_truncate are proved against an array of bytes with a cursor,
   first one by one, then over every run (`FileRuns`), together with what they leave alone and with what the medium alone
   holds after each sync.
3. `DirTable`, `DirNames`, `DirOps` and `DirRegister` turn a directory into its listing, dir_find into a function on
   listings, and dir_register into an update of the listing that dir_find then sees, and of nothing else on the disk.
   `DirSearch` says what dir_find finds in terms of the bytes of the table alone.
4. `Terminal` interprets the bytes that the editor sends; `LineEditor.Input` says that after every key buffer and
   terminal show the same line.
5. `JsTables` ties the token function to tables of spellings and to the shapes of comments, numbers and strings;
   `JsRelex` and `JsLexer` show that a cut-out stretch of text replays the same tokens; `JsRoundTrip` uses the token
   function to evaluate printed values; `JsRefs` to `JsRuns` prove the reference counts over arbitrary, also cyclic,
   graphs.

## Where the code does less than expected

Each of these is proved with its exact condition; where that leaves open whether it can happen, a concrete input shows it.

- f_truncate does not look at the private buffer. The open file stays consistent if and only if a dirty buffer holds a
  sector of the clusters that stay (`FileTruncate.Truncate`, `Keepable`); else the buffer is later written to a cluster
  that is free. Write, seek to 0, truncate does it (`Witnesses.TruncateBreaks`). In `FileRuns` truncation therefore comes
  with a sync in front.
- f_lseek(CREATE_LINKMAP) fails with FR_INT_ERR exactly for a chain that ends in the last cluster of the volume with an
  end mark equal to the number of entries (`LinkMap.CreateLinkmap`, `Witnesses.LinkmapFails`).
- chk_mounted adds and multiplies modulo 2^32 and does not check where FSInfo is. What it accepts lies inside the volume
  if and only if nothing wraps and FSInfo is in the reserved area (`Mount.ChkMounted`, `Sane`, `Mount.WrapPasses`,
  `Mount.FsInfoPasses`).
- f_getfree counts the two reserved entries when they are zero, and caches the partial count of a FAT12 volume on which
  an entry reads 1 (`FreeCount.GetFree`, `Witnesses.CountsReserved`, `Witnesses.CountsHalf`).
- A long name of 255 characters is stored but not found (`DirNames.FullNameLost`), and names of 254 and 255 characters
  cannot be read back (`LongNames.PickName`).
- getJSON is inverted by evaluate except for the smallest integer (`JsRoundTrip.SmallestLost`), for strings with characters that the printer or the
  lexer changes, and for arrays of more than 10000 items (`JsRoundTrip.JsonRoundTrip`, `Storable`).
- The star that opens a block comment can close it: `/*/` is a whole comment (`JsTables.SkipPieces`, `JsTables.StarCloses`).
- The escapes that getJSString writes are those of single-quoted strings, between double quotes, where the lexer knows
  only three of them (`JsLiterals.SingleReturns`, `JsRoundTrip.StringReturns`).
- removeAllChildren deletes the variable it works on if and only if nothing outside of the variable's own list keeps the
  variable alive (`JsLinks.LivesIff`, `Survives`, `JsLinks.LoopDies`).

## Model

| member | source | states |
|---|---|---|
| `Bits.PowerOfTwoTest` | ext/fatfs/src/ff.c:2094-2095 | `b & (b-1)` is zero if and only if b is a power of two, the test of sectors per cluster |
| `Bits.AndMask` | ext/fatfs/src/ff.c:828-840 | a mask of k ones takes the remainder modulo 2^k, for bitwise operators defined digit by digit |
| `Bits.OrUpper` | ext/fatfs/src/ff.c:902-904 | or-ing a shifted field leaves the low bits alone; with OrFields it turns every mask-and-or of the code into arithmetic |
| `Layout.Clust2Sect` | ext/fatfs/src/ff.c:801-809 | the first sector of a cluster, inside the volume; 0 for every other number, including 0 and 1 where the DWORD subtraction wraps |
| `Layout.ClustersDisjoint` | ext/fatfs/src/ff.c:801-809 | two clusters that share a sector are the same cluster |
| `Window.MoveWindow` | ext/fatfs/src/ff.c:719-751 | the logical disk (the disk with the dirty window written over it) is unchanged, and the window shows the wanted sector of it; sector 0 only writes back |
| `Window.WriteBack` | ext/fatfs/src/ff.c:730-741 | a FAT sector goes to the same place in every copy, any other sector to one place |
| `Window.WithSectorKeepsMirror` | ext/fatfs/src/ff.c:733-741 | a flush keeps two equal FAT copies equal |
| `WindowRuns.Run` | ext/fatfs/src/ff.c:719-751 | over every run of window moves, stores, put_fats, clean-ups and syncs: each has its stated effect on the logical disk; equal FAT copies stay equal on it, and on the medium whenever the window is clean |
| `WindowRuns.Perform` | ext/fatfs/src/ff.c:719-790 | each single step of such a run, with its effect |
| `FatPacking.Set12` | ext/fatfs/src/ff.c:878-890 | FAT12: rewriting the byte and a half of entry c changes entry c to val mod 2^12 and no other entry, though neighbours share a byte |
| `FatPacking.Set32` | ext/fatfs/src/ff.c:899-905 | FAT32: the same for 28 bits; the reserved bits above an entry only gain bits |
| `FatAccess.GetFat` | ext/fatfs/src/ff.c:819-852 | decoding through the window, also across a sector boundary: the entry of the abstract table, 1 for a number that is no cluster; the logical disk is unchanged |
| `FatAccess.PutFat` | ext/fatfs/src/ff.c:862-914 | the abstract table is updated at one index, nothing outside the FAT copies changes; FR_INT_ERR exactly for numbers that are no cluster, and then nothing changes |
| `FatAccess.Store12` | ext/fatfs/src/ff.c:878-890 | the two byte stores of FAT12, with the window moved in between, are the packed update |
| `FatAccess.Merge32` | ext/fatfs/src/ff.c:902-904 | the value or-ed with the reserved bits, as arithmetic |
| `Allocator.FindFree` | ext/fatfs/src/ff.c:998-1010 | cyclic search: 0 iff no entry is free or reads 1, else the first such entry behind the start, in wrap-around order |
| `Allocator.CreateChain` | ext/fatfs/src/ff.c:978-1027 | every outcome: a follower that exists, an error, no room (FAT unchanged), or the first free cluster marked as end and linked behind clst; free count and last cluster follow |
| `Allocator.RemoveChain` | ext/fatfs/src/ff.c:925-967 | the FAT becomes the result of following and clearing, for any FAT, cyclic ones included (it ends, since every step frees one entry); the free count follows exactly |
| `Allocator.UnlinkChain` | ext/fatfs/src/ff.c:937-962 | on a terminated chain exactly its clusters become free |
| `Chains.CreateKeepsForest` | ext/fatfs/src/ff.c:1012 | starting a chain in a free cluster keeps the FAT a family of disjoint terminated chains and free clusters |
| `Chains.StretchKeepsForest` | ext/fatfs/src/ff.c:1012-1015 | appending a free cluster keeps the family |
| `Chains.RemoveKeepsForest` | ext/fatfs/src/ff.c:925-967 | freeing one chain keeps the family |
| `Chains.CutKeepsForest` | ext/fatfs/src/ff.c:3163-3175 | cutting a chain behind its k-th cluster keeps the family |
| `ChainRuns.TruncateIsCut` | ext/fatfs/src/ff.c:3172-3173 | put_fat of an end mark and remove_chain of the follower is the cut |
| `ChainRuns.StepKeepsForest` | ext/fatfs/src/ff.c:925-1027 | one create, append, release or truncate keeps the family, and the family changes in exactly one place: a new chain, a longer one, one less, or one cut behind the given cluster |
| `ChainRuns.RunKeepsForest` | ext/fatfs/src/ff.c:925-1027 | every run of them does: a family for each FAT of the run, each the one before with that change; no cross links, no cycles, no lost clusters |
| `ChainRuns.ReleaseFrees` | ext/fatfs/src/ff.c:946-953 | conservation: freeing a chain adds exactly its length to the free clusters |
| `VolumeRuns.Run` | ext/fatfs/src/ff.c:925-1027 | the same over create_chain, remove_chain and the cut on a mounted volume, in every run of calls that are legal when their turn comes: each call is the step on the FAT, searches start behind the last allocated cluster, the family changes in one place, nothing outside the FAT copies changes, and a free cluster count that is exact stays exact |
| `VolumeRuns.Perform` | ext/fatfs/src/ff.c:925-1027 | each operation of such a run is the step on the FAT, and last_clust follows |
| `VolumeRuns.CutOwnChain` | ext/fatfs/src/ff.c:978-1027 | on an empty volume a chain may be created, extended and cut in one run |
| `Allocator.EndChain` | ext/fatfs/src/ff.c:3171-3173 | end mark and removal of the rest, for any FAT, with the count kept exact |
| `FileRead.Read` | ext/fatfs/src/ff.c:2373-2464 | min(btr, rest) bytes, equal to that stretch of the file; cursor advanced by as much; contents and disk view unchanged, and no clean window made dirty; any mix of whole sectors, buffer and dirty buffer; nothing for an aborted file |
| `FileRead.ReadCluster` | ext/fatfs/src/ff.c:2394-2411 | at a sector boundary the sector computed from cluster and offset is the one that holds the cursor |
| `FileGrow.Grow` | ext/fatfs/src/ff.c:978-1027 | create_chain on behalf of an open file: its chain gets one cluster longer, no entry in use by anyone else changes, no cluster is lost, 0 only if no cluster is free |
| `FileGrow.Conserved` | ext/fatfs/src/ff.c:978-1027 | conservation: the clusters of an open file and the free ones together stay as many, whatever is done to the file |
| `FileWrite.Write` | ext/fatfs/src/ff.c:2474-2584 | the contents become the old ones overwritten (and extended) at the cursor by the bytes written; nothing outside the file changes; short only on a full disk, and then exactly to the end of the last cluster; nothing for a file that would pass 4 GB, a read-only or an aborted one; always marked as written otherwise |
| `FileSeek.Seek` | ext/fatfs/src/ff.c:2876-2950 | read-only files stop at their end; writable ones grow and keep their old bytes as a prefix; a full disk stops the cursor at the end of the last cluster; a chain that grew is always marked as written; an aborted file is left alone |
| `FileSeek.SeekTo` | ext/fatfs/src/ff.c:2876-2943 | the walk itself, with cluster and buffer left right for the new position |
| `DirEntry.StampedReads` | ext/fatfs/src/ff.c:2616-2620 | what f_sync stores in the entry reads back as size (bytes 28 to 31), time (22 to 25) and first cluster (26, 27, 20, 21), bit 5 of byte 11 is set, and every other byte of the sector is the old one |
| `DirEntry.FsInfoReads` | ext/fatfs/src/ff.c:774-782 | the FSInfo sector that sync writes is one that the next mount accepts, with signatures and both counters at their offsets |
| `FileSync.SyncVolume` | ext/fatfs/src/ff.c:761-790 | afterwards the medium is the logical disk, with FSInfo up to date on FAT32 |
| `FileSync.Sync` | ext/fatfs/src/ff.c:2593-2629 | afterwards the medium alone stores the file (entry, chain and bytes), if it did so before or the file is marked as written; contents unchanged; outside of FSInfo only the sector with the entry changed, and of it only byte 11, which is the old one with bit 5 set, and bytes 20 to 31 of the entry, which hold size, first cluster and the given time |
| `FileSync.Open` | ext/fatfs/src/ff.c:2351-2361 | a file stored on the medium opens with those bytes, cursor 0, and is durable |
| `FileSync.Reopen` | ext/fatfs/src/ff.c:2593-2629 | sync, power off, mount and open give the same bytes and chain, also for a file that was not written since the last sync or open |
| `FileSync.OnMediumWhen` | ext/fatfs/src/ff.c:2593-2629 | with window and buffer clean, what the file shows is what the medium holds |
| `FileTruncate.Truncate` | ext/fatfs/src/ff.c:3142-3181 | the file ends at the cursor, the other clusters are free again and counted; the invariant of the open file survives if and only if a dirty buffer holds a sector of the clusters that stay (Keepable); otherwise the buffer waits to be written to a cluster that is free now |
| `FileTruncate.CutToFrees` | ext/fatfs/src/ff.c:3163-3175 | the free clusters grow by exactly the clusters cut off |
| `FileTruncate.BufferReleased` | ext/fatfs/src/ff.c:3161-3175 | a dirty buffer that does not stay holds a sector of a cluster whose entry is now 0 |
| `FileTruncate.KeepableWhen` | ext/fatfs/src/ff.c:3142-3181 | callers who just synced, or whose cursor is inside a sector, are safe |
| `FileTruncate.LosesBuffer` | ext/fatfs/src/ff.c:3142-3181 | after a seek back to 0 every dirty buffer is one whose cluster is released |
| `Witnesses.WriteRewindTruncate` | ext/fatfs/src/ff.c:3142-3181 | write less than a sector, seek to 0, truncate: on every volume where the write stores a byte the open file is broken and its dirty buffer belongs to a free cluster |
| `Witnesses.TruncateBreaks` | ext/fatfs/src/ff.c:3142-3181 | the same from a concrete mounted disk on |
| `FileRuns.Run` | ext/fatfs/src/ff.c:2373-3181 | any sequence of reads, writes, seeks, syncs and truncates on an open file behaves as on an array of bytes with a cursor that can get as long as its clusters and the free ones at the start (writes are short and seeks stop exactly there) and loses no cluster; it changes no FAT entry in use by others, no other sector outside of the FAT but FSInfo, and in the sector with the directory entry only what a stamp changes; from a durable state on, after every sync the medium alone stores the file as it was then, and at the end unless the file is marked as written |
| `FileRuns.Perform` | ext/fatfs/src/ff.c:2373-3181 | each call of such a sequence, capacity and durability included |
| `FileRuns.TraceOnce` | ext/fatfs/src/ff.c:2373-3181 | the calls determine the run: position, size and number of bytes read after each call, and every byte unless a seek left a gap |
| `FileRuns.OtherFile` | ext/fatfs/src/ff.c:2474-2584 | a file with a disjoint chain keeps its chain and all its bytes through such a run |
| `FileRuns.OtherStored` | ext/fatfs/src/ff.c:2474-2629 | another file that the disk stores stays stored through such a run: entry, chain and bytes, also when both entries share a sector |
| `FileRuns.ByteKept` | ext/fatfs/src/ff.c:2474-2584 | a byte that no call stores to or cuts off keeps its value over the run |
| `LinkMap.FragmentsExact` | ext/fatfs/src/ff.c:2825-2839 | the run-length encoding expands to the chain, and no two neighbouring runs could be joined |
| `LinkMap.CreateLinkmap` | ext/fatfs/src/ff.c:2810-2844 | the table is that encoding and the size needed is reported even when it does not fit; FR_INT_ERR, and the file aborted, if and only if it was aborted before or the end mark is the number after the last cluster |
| `Witnesses.LinkmapFails` | ext/fatfs/src/ff.c:2825-2839 | a concrete volume on which it fails |
| `Witnesses.OwnEndAdjoins` | ext/fatfs/src/ff.c:1012 | for chains that create_chain closed it takes the greatest FAT32 volume and its last cluster |
| `LinkMap.ClmtClust` | ext/fatfs/src/ff.c:1038-1055 | the table gives the cluster of any byte, 0 behind the chain |
| `LinkMap.FastSeek` | ext/fatfs/src/ff.c:2846-2870 | with the table the cursor goes to min(ofs, size) and the open file is valid, without reading the FAT; an aborted file is left alone |
| `LinkMap.CursorIsWalk` | ext/fatfs/src/ff.c:2876-2943 | in every valid state the current cluster is the one that a walk of the FAT from the first cluster reaches: fast seek and normal seek agree |
| `LinkMap.MapIsWalk` | ext/fatfs/src/ff.c:1038-1055 | the table and the FAT give the same k-th cluster |
| `Mount.ChkMounted` | ext/fatfs/src/ff.c:2083-2141 | what the code accepts and every field of the layout, by the bytes of the boot sector, 16-bit or 32-bit field included; an accepted boot sector gives regions in order inside the volume, with room for every entry, if and only if no sum wraps and, on FAT32, the entry numbers fit 28 bits and the FSInfo number lies in the reserved area (Sane); it is then the layout that the boot sector describes |
| `Mount.Analyze` | ext/fatfs/src/ff.c:2083-2141 | the tests and assignments one by one, with DWORD wrap-around |
| `Mount.AcceptedDescribes` | ext/fatfs/src/ff.c:2083-2141 | the accepted layouts are those that the bytes describe, and no others |
| `Mount.MountFloppy` | ext/fatfs/src/ff.c:2083-2141 | the boot sector of a 2880 sector floppy disk, given by its bytes, and the FAT12 layout it mounts to |
| `Mount.MountCard` | ext/fatfs/src/ff.c:2083-2141 | the boot sector of a 532480 sector card with 32-bit fields, and the FAT32 layout it mounts to |
| `Mount.SaneLayout` | ext/fatfs/src/ff.c:2107-2130 | acceptance without wrap gives that layout, and it meets every condition the other modules assume of a mounted volume |
| `Mount.InVolumeSane` | ext/fatfs/src/ff.c:2107-2141 | and only then |
| `Mount.FsInfoPasses` | ext/fatfs/src/ff.c:2138-2141 | a boot sector that passes without any wrap, although sync will write FSInfo over the FAT; with number 0, over the boot sector |
| `Mount.WrapPasses` | ext/fatfs/src/ff.c:2122-2130 | a boot sector with 2^30 entries and a FAT of one sector passes, because the required size wraps |
| `Mount.EndMarkReads` | ext/fatfs/src/ff.c:1012 | the end mark reads back as no cluster exactly for volumes of up to 0x0FFFFFFF entries |
| `FreeCount.GetFree` | ext/fatfs/src/ff.c:3077-3133 | the cached count in range, else a full count: free clusters plus reserved entries that are zero (FAT16/32); free clusters up to the first entry that reads 1, cached all the same, with an error exactly when there is one (FAT12) |
| `Witnesses.CountsReserved` | ext/fatfs/src/ff.c:3108-3125 | a concrete FAT16 volume on which it reports two clusters more than there are |
| `Witnesses.CountsHalf` | ext/fatfs/src/ff.c:3099-3106 | a concrete FAT12 volume on which it reports an error and, asked again, a wrong count |
| `FreeCount.ScanFat` | ext/fatfs/src/ff.c:3108-3125 | the raw scan by sectors counts the zero entries of the abstract table |
| `FreeCount.Count12` | ext/fatfs/src/ff.c:3099-3106 | the FAT12 loop counts the free clusters before the first entry that reads 1 |
| `FreeCount.ZerosAreFree` | ext/fatfs/src/ff.c:3108-3125 | how the raw count relates to the number of free clusters |
| `LongNames.FitLfn` | ext/fatfs/src/ff.c:1249-1274 | the entry of order ord holds exactly the characters of that segment, NUL and filler, sum and flags; no other byte of the window changes |
| `DirSearch.LfnEntryBytes` | ext/fatfs/src/ff.c:1249-1274 | the stored entry byte by byte: order and flag, attribute 15, sum in byte 13, characters in bytes 1 to 10, 14 to 25 and 28 to 31 |
| `LongNames.CmpLfn` | ext/fatfs/src/ff.c:1185-1211 | the loop computes the comparison function |
| `DirSearch.CmpTells` | ext/fatfs/src/ff.c:1185-1211 | an entry compares equal if and only if its characters are those of its segment of the name up to case, with a NUL and filler where the name ends in it and nothing behind where it ends with it |
| `LongNames.CmpName` | ext/fatfs/src/ff.c:1185-1211 | all entries of a name compare equal if and only if it is the wanted name up to case and shorter than 255 characters, whatever the buffer holds behind its NUL |
| `LongNames.PickLfn` | ext/fatfs/src/ff.c:1216-1244 | the loop computes the picking function, and fails exactly when it does |
| `LongNames.PickName` | ext/fatfs/src/ff.c:1216-1274 | storing and picking up gives the name back if and only if it has at most 253 characters; longer ones are refused |
| `DirTable.Sdi` | ext/fatfs/src/ff.c:1065-1103 | dir_sdi leads to cluster, sector and offset of entry idx exactly when there is such an entry |
| `DirTable.Next` | ext/fatfs/src/ff.c:1113-1171 | dir_next leads to the next entry, reports the end, or stretches the table by one zeroed cluster; every case decided exactly |
| `DirTable.ZeroCluster` | ext/fatfs/src/ff.c:1147-1156 | the clean-up loop that moves winsect by hand zeroes exactly the new cluster and leaves the window consistent |
| `DirTable.WalkTo` | ext/fatfs/src/ff.c:1065-1171 | k steps of dir_next lead where dir_sdi(k) leads |
| `DirNames.SumOfName` | ext/fatfs/src/ff.c:1333-1342 | the loop computes the check sum |
| `DirSearch.SumSteps` | ext/fatfs/src/ff.c:1333-1342 | each byte is added, modulo 256, to the sum rotated right by one bit |
| `DirSearch.SumOfReadme` | ext/fatfs/src/ff.c:1333-1342 | the sum of one name |
| `DirNames.EnteredIsFound` | ext/fatfs/src/ff.c:1353-1404 | a name entered into blank entries is found at its short entry, with the index of its first long entry |
| `DirNames.FullNameLost` | ext/fatfs/src/ff.c:1353-1404 | a shortened name of 255 characters is entered but not found again |
| `DirNames.MissedIsNew` | ext/fatfs/src/ff.c:1353-1404 | a search that compares short names and misses: no live entry has that short name |
| `DirNames.EnteredKeepsDistinct` | ext/fatfs/src/ff.c:1508-1567 | entering a name changes no entry in use, adds one live short entry and keeps short names distinct |
| `DirNames.OthersFound` | ext/fatfs/src/ff.c:1353-1404 | entering a name does not disturb the lookup of any other name |
| `DirOps.DirFind` | ext/fatfs/src/ff.c:1353-1404 | the loop over the table in the window computes the search function on the listing, which FindIsFirst describes by bytes; the disk is unchanged |
| `DirSearch.FindIsFirst` | ext/fatfs/src/ff.c:1353-1404 | for every table: the search hits the first entry that is to be found and misses only if there is none; with it comes where its long name starts. To be found means: in front of the end mark, first byte neither 0 nor 0xE5, attribute bit 3 clear, and the 11 bytes are the wanted ones (unless shortened) or the long entries directly in front, numbered down to 1 behind a flagged one, spell the name and carry the sum of the 11 bytes |
| `DirSearch.SyncKeepsNames` | ext/fatfs/src/ff.c:2613-2620 | f_sync of a file changes no search in its directory: what was found is still found at the same entry |
| `DirOps.Reserve` | ext/fatfs/src/ff.c:1508-1523 | the first blank entries in a row that suffice, stretching the table when needed; it fails only if there are none and the table has 65536 entries, is static, or the disk is full |
| `DirOps.StoreLongs` | ext/fatfs/src/ff.c:1525-1538 | the long entries stand in front of the short one, last segment first |
| `DirOps.OtherChain` | ext/fatfs/src/ff.c:1471-1567 | whatever dir_register does to a directory, a file with a disjoint chain keeps its chain and its bytes |
| `DirNames.FreshIsEmpty` | ext/fatfs/src/ff.c:1557-1560 | a short entry as it is entered is that of an empty file without a cluster |
| `DirOps.NumbersDiffer` | ext/fatfs/src/ff.c:1285-1322 | different numbers give different short names, for every base name and all numbers of up to seven digits |
| `DirSearch.NumberIs` | ext/fatfs/src/ff.c:1285-1301 | the number is the given one up to 5, and from 6 on it has every character of the name added, modulo 65536, each after a rotation right by one bit |
| `DirSearch.HexValue` | ext/fatfs/src/ff.c:1303-1310 | its digits are upper-case hexadecimal, without leading zero, and stand for it |
| `DirSearch.NumberedExample` | ext/fatfs/src/ff.c:1285-1322 | one numbered name |
| `DirRegister.GenNumname` | ext/fatfs/src/ff.c:1285-1322 | gen_numname puts a tilde and the number, or the hash from 6 on, behind the cut body |
| `DirRegister.PickNumber` | ext/fatfs/src/ff.c:1489-1499 | the given name with the first number that is not in use; FR_DENIED exactly when all 99 are |
| `DirRegister.StoreName` | ext/fatfs/src/ff.c:1525-1567 | long entries and short entry stand in the reserved place; the short one has the name, the case bits of the status byte and zeros; no sector outside of the table changes |
| `DirRegister.DirRegister` | ext/fatfs/src/ff.c:1471-1567 | on success the name stands in the first entries that suffice, with the given short name or with the first number not in use, and its short entry is new: size and first cluster 0, case bits in byte 12, all else behind the name zero; it fails only if all 99 numbers are in use or there is no room, and then the table has at most become longer; outside of the table only free FAT entries change |
| `DirRegister.RegisteredName` | ext/fatfs/src/ff.c:1471-1567 | after a miss and a registration: the name is found, short names stay distinct, entries in use keep their bytes |
| `DirRegister.Create` | ext/fatfs/src/ff.c:2266-2291 | a name that is there is found and nothing changes; else it is registered, with an empty new entry, and found at the entry that the object points at, unless it is a new name of 255 characters, which is entered and not found; it fails only without room or without a free number; outside of the table only free FAT entries change |
| `Terminal.FeedText` | os/various/rdline.c:92-98 | printed text overwrites the line from the cursor on |
| `Terminal.FeedMove` | os/various/rdline.c:75-90 | a whole cursor movement, parameter included |
| `Terminal.ControlBytes` | os/various/rdline.c:75-98 | the three control sequences that the editor sends, by their bytes |
| `LineEditor.Rev` | os/various/rdline.c:30-35 | in-place reversal |
| `LineEditor.Convascii` | os/various/rdline.c:39-48 | the decimal digits of the number |
| `LineEditor.PrintLine` | os/various/rdline.c:122-129 | the rest of the line is redrawn and the cursor is back |
| `LineEditor.InsertChar` | os/various/rdline.c:102-110 | the byte is inserted and the NUL moved along |
| `LineEditor.RemoveChar` | os/various/rdline.c:112-120 | the gap is closed, NUL included |
| `LineEditor.DoInsert` | os/various/rdline.c:258-266 | inserting keeps buffer and screen in step; a full buffer refuses |
| `LineEditor.DoBackspace` | os/various/rdline.c:170-180 | backspace keeps buffer and screen in step |
| `LineEditor.DoDelete` | os/various/rdline.c:244-252 | the delete key keeps buffer and screen in step |
| `LineEditor.DoMotion` | os/various/rdline.c:225-243 | cursor keys keep buffer and screen in step |
| `LineEditor.Input` | os/various/rdline.c:202-270 | for every input the buffer becomes what the keys make of the line, NUL-terminated inside its size, and after every key the terminal shows the text with the cursor in place |
| `LineEditor.DecodesKey` | os/various/rdline.c:202-270 | the bytes that a terminal sends for a key are read as that key |
| `LineEditor.EditTurns` | os/various/rdline.c:225-266 | what each key does to the text in front of the cursor and behind it |
| `LineEditor.TypedKeys` | os/various/rdline.c:202-270 | any keys typed in front of one that leaves the line are done to the line one by one |
| `JsRelex.TokenSame` | ext/tinyjs/TinyJS.cpp:405-607 | a token does not change when the text is cut behind it |
| `JsRelex.Relex` | ext/tinyjs/TinyJS.cpp:625-631 | a text cut behind its n-th token gives the same n tokens and then the end |
| `JsLexer.Lexer.GetNextToken` | ext/tinyjs/TinyJS.cpp:405-607 | the scanner computes the token function, with start, end and last end, and ends on every text; the JsTables members say what these tokens are |
| `JsTables.SkipPieces` | ext/tinyjs/TinyJS.cpp:408-423 | the text in front of a token is a sequence of blanks, line comments with their newline and block comments with their closing pair, and no other follows |
| `JsTables.SkipIs` | ext/tinyjs/TinyJS.cpp:408-423 | any such sequence ends where the token starts |
| `JsTables.StarCloses` | ext/tinyjs/TinyJS.cpp:417-423 | the opening star can be the closing one |
| `JsTables.OperatorLongest` | ext/tinyjs/TinyJS.cpp:534-602 | an operator is the longest spelling of the table of 20 that the text has there, with its number; without one the token is the character |
| `JsTables.WordToken` | ext/tinyjs/TinyJS.cpp:427-432 | a word is the maximal run of letters, digits and underscores |
| `JsTables.WordIs` | ext/tinyjs/TinyJS.cpp:433-447 | it is reserved exactly if it is in the table of 15, and has the number given there |
| `JsTables.HexToken` | ext/tinyjs/TinyJS.cpp:449-462 | 0x takes all hexadecimal digits that follow |
| `JsTables.NumberToken` | ext/tinyjs/TinyJS.cpp:448-477 | any other number takes its digits, a fraction behind a point and an exponent behind an e, all maximal, and is a floating point number if it has one of these |
| `JsTables.StringToken` | ext/tinyjs/TinyJS.cpp:478-533 | a string is read unit by unit up to its quote or the end of the text; the value of each unit |
| `JsTables.EscapeIs` | ext/tinyjs/TinyJS.cpp:503-526 | the escapes of single-quoted strings and their values, two hexadecimal and three octal digits included |
| `JsLexer.Lexer.Reset` | ext/tinyjs/TinyJS.cpp:319-329 | the first token again, whatever happened before |
| `JsLexer.GetSubLex` | ext/tinyjs/TinyJS.cpp:625-631 | the sub-lexer covers the text from the mark to the end of the last token consumed |
| `JsLexer.SubLexReplays` | ext/tinyjs/TinyJS.cpp:1999-2031 | loop bodies: the sub-lexer gives exactly the tokens the parent consumed, after every reset, and then the end |
| `JsLexer.ConsumedReplays` | ext/tinyjs/TinyJS.cpp:1999-2031 | the same for a parent that reads the tokens itself, from wherever it stands |
| `JsRelex.SkipTwice` | ext/tinyjs/TinyJS.cpp:405-607 | looking for a token from where it starts finds it again |
| `JsLexer.CountTokens` | ext/tinyjs/TinyJS.cpp:319-329 | reading to the end sees every token once |
| `JsJson.GetJSString` | ext/tinyjs/TinyJS.cpp:247-277 | rewriting the string in place while walking it gives the quoted string, escapes included |
| `JsRoundTrip.ValueReturns` | ext/tinyjs/TinyJS.cpp:1225-1258 | a printed value, wherever it stands in a text, evaluates to the value that comes back and stops behind it |
| `JsRoundTrip.StringReturns` | ext/tinyjs/TinyJS.cpp:247-277 | a string comes back if and only if it is made of characters that are quoted faithfully |
| `JsLiterals.SingleReturns` | ext/tinyjs/TinyJS.cpp:247-277 | in single quotes every string of bytes without such a quote would come back: the printer writes the escapes of single-quoted strings |
| `JsLiterals.WordValue` | ext/tinyjs/TinyJS.cpp:1554-1569 | true, false, null and undefined and their values; no other word is one |
| `JsLiterals.NumberValue` | ext/tinyjs/TinyJS.cpp:737 | the values of hexadecimal, octal and decimal numbers, up to the greatest integer |
| `JsRoundTrip.LoadedSame` | ext/tinyjs/TinyJS.cpp:1225-1258 | the value that comes back is the printed one if and only if it is storable |
| `JsRoundTrip.JsonRoundTrip` | ext/tinyjs/TinyJS.cpp:1344-1386 | evaluating what getJSON printed, for every value; it is that value exactly for storable ones |
| `JsRoundTrip.SmallestLost` | ext/tinyjs/TinyJS.cpp:1344-1386 | the smallest integer is printed and comes back as another number |
| `JsRefs.LiveExactly` | ext/tinyjs/TinyJS.cpp:1271-1276 | after any cascade the variables left are the greatest set that keep each other alive without the deleted links |
| `JsRefs.LinksExactly` | ext/tinyjs/TinyJS.cpp:879-888 | the links left are the free ones and those in lists of variables left, apart from the deleted ones |
| `JsRefs.Determined` | ext/tinyjs/TinyJS.cpp:1271-1276 | the outcome of a cascade does not depend on the order of deletions |
| `JsGraph.Graph.Unref` | ext/tinyjs/TinyJS.cpp:1271-1276 | counts stay exact and lists in order; the variable goes exactly when the count reaches zero; the cascade ends, cyclic data included |
| `JsGraph.Graph.DeleteLinks` | ext/tinyjs/TinyJS.cpp:879-886 | the loop over the list reads next before it deletes, and never meets a link that is gone |
| `JsGraph.Graph.DeleteLink` | ext/tinyjs/TinyJS.cpp:678-683 | deleting a link drops one reference |
| `JsGraph.Graph.NewLink` | ext/tinyjs/TinyJS.cpp:655-664 | a new link is a reference |
| `JsGraph.Graph.Clean` | ext/tinyjs/TinyJS.cpp:127 | CLEAN deletes exactly the links that are in no list |
| `JsGraph.Graph.Release` | ext/tinyjs/TinyJS.cpp:1271-1276 | giving up an explicit reference |
| `JsGraph.Graph.ReplaceWith` | ext/tinyjs/TinyJS.cpp:685-689 | redirecting a link, also to the variable it already points to |
| `JsGraph.Graph.FindChild` | ext/tinyjs/TinyJS.cpp:793-801 | the first link of the list with that name, 0 exactly when there is none |
| `JsGraph.Graph.AddChild` | ext/tinyjs/TinyJS.cpp:819-838 | a new link stands at the end of the doubly linked list |
| `JsGraph.Graph.AddChildNoDup` | ext/tinyjs/TinyJS.cpp:840-853 | an existing link is redirected, else one is added |
| `JsGraph.Graph.RemoveLink` | ext/tinyjs/TinyJS.cpp:866-877 | the link leaves the list and is deleted; the variable itself may go with it |
| `JsGraph.Graph.RemoveAllChildren` | ext/tinyjs/TinyJS.cpp:879-888 | all links go and the variable stays, provided that something else keeps it alive |
| `JsLinks.OwnListDies` | ext/tinyjs/TinyJS.cpp:879-888 | a variable that only its own list points to does not survive the deletion of that list |
| `JsLinks.LivesIff` | ext/tinyjs/TinyJS.cpp:879-888 | whatever the deletion of its list leaves, the variable is left if and only if it survives: something outside of its list keeps it alive |
| `JsLinks.LoopDies` | ext/tinyjs/TinyJS.cpp:879-888 | a store with one variable in its own list, which goes with its only link |
| `JsLinks.HeldSurvives` | ext/tinyjs/TinyJS.cpp:879-888 | explicit references make a variable survive, |
| `JsLinks.NewSurvives` | ext/tinyjs/TinyJS.cpp:879-888 | so does never having been referenced, |
| `JsLinks.FreeLinkSurvives` | ext/tinyjs/TinyJS.cpp:1001-1017 | a free link, |
| `JsLinks.ListedSurvives` | ext/tinyjs/TinyJS.cpp:1123-1152 | and a link in the list of another variable that is kept alive |
| `JsGraph.Graph.DeleteChildren` | ext/tinyjs/TinyJS.cpp:879-888 | the deletions on a list detached beforehand, for any variable: it lives to see the end if and only if it survives |
| `JsRuns.Run` | ext/tinyjs/TinyJS.cpp:655-888 | over every run of allowed operations (removeAllChildren on any variable that survives it) each store has exact counts and lists in order and follows from the one before |
| `JsRuns.EmptyingNew` | ext/tinyjs/TinyJS.cpp:709-716 | a new variable may be emptied at once |
| `JsRuns.OneRun` | ext/tinyjs/TinyJS.cpp:655-888 | two runs of the same operations agree throughout |

## Left out

- Disk errors: disk_read and disk_write always succeed here; FR_DISK_ERR, FR_NOT_READY and write protection do not occur.
- One open file at a time over a volume that nobody else writes; file sharing, locking, reentrancy and the tiny buffer
  configuration are not modelled.
- FileRead.Read: for a FAT in which no entry reads 1, a file whose chain is long enough for its size, and a directory
  entry and window outside of the file's clusters. All of it is part of the invariant that f_open establishes and every
  call keeps. What the code does on a damaged chain is not modelled for open files, only for the allocator.
- FileWrite.Write: on the same files as FileRead.Read.
- FileTruncate.Truncate: on the same files as FileRead.Read.
- FileSeek.Seek: on the same files as FileRead.Read. The cursor is assigned before the buffer is refilled in the code and
  after it here.
- LineEditor.DoBackspace: the cursor is moved before the character is removed in the code and after it here.
- FileRuns.Run: truncation is f_sync followed by f_truncate, for the reason given above, and the file is not an aborted
  one, on which every call but f_sync only reports FR_INT_ERR.
- DirTable.Sdi: for a directory whose cluster chain is intact, or whose first cluster is invalid.
- DirOps.DirFind: for a directory whose cluster chain is intact.
- DirRegister.Create: the last component of a path in one directory. Splitting and converting path names (create_name,
  follow_path), dot entries, dir_read, dir_remove, f_unlink, f_rename, f_mkdir, f_utime and f_chmod are left out.
- DirRegister.GenNumname: single-byte code pages only; ff_wtoupper is any function that maps only NUL to NUL.
- f_mkfs, f_fdisk, f_forward, string functions and the search for a partition in chk_mounted.
- FileSync.Sync: the clock is a parameter.
- LineEditor.Input: one line without history (rdline_read, history_get), on a terminal that does not wrap.
- JsJson, JsEval: undefined, null, integers, strings, objects and arrays without gaps; functions, doubles and everything
  that executes statements or operators are left out, and so are syntax errors beyond the fact that there is one. long has
  32 bits.
- JsGraph.Graph.RemoveAllChildren: only for variables that survive it, since the code uses the variable afterwards; see
  JsLinks.LivesIff for the others.
- JsGraph: flags and values of variables. Addresses that new returns are parameters. removeChild is left out.
- JsGraph.Graph.Unref: dropping a reference that was never taken only prints a message in the code; here it is excluded.
- Chip drivers, USB, network, user interface and the build are not part of this model.
