# A verified model of a FAT32 image reader

This project models the traversal engine of a small read-only FAT32 reader written in C (`FAT32.c`). The model is written in Dafny and its properties are proved. The engine:

- reads the master boot record and the BIOS parameter block of a raw disk image and derives the volume geometry;
- follows cluster chains through the file allocation table (`readFAT`);
- decodes 32-byte directory records: the 8.3 checksum (`ChkSum`), the short-name normalisation (`addDot`, `removeSpaces`), long-name reassembly from the records before a short entry, and the packed fields;
- lists the root directory (`readRootDir`), looks a file up by name (`readFile`) and copies a file's clusters to an output stream (`copyFile`).

The disk image is an immutable `seq<byte>`. A read that does not lie wholly inside the image fails with `IoError`. The C integer widths are modelled explicitly where they matter:
- sector arithmetic in `unsigned long` (`Wrap64`);
- the data-region start in `unsigned int` (`Wrap32`);
- the signed `int` FAT entries, sign-extended into `unsigned long` (`SignExtend32`);
- C's truncating division (`CDiv`).

The modules follow the reader's structure:

| module | file | what it holds |
|---|---|---|
| `Base` | base.dfy | bytes, machine arithmetic, `Result`, traces, C strings and `strncmp` |
| `SectorReader` | sector_reader.dfy | absolute sector and record reads (`fread`, `readEntry`) |
| `VolumeLayout` | volume_layout.dfy | MBR/BPB decoding, `getFirstSector`, cluster sector addresses |
| `FatTable` | fat_table.dfy | `readFAT`, the cluster chain and its cycle guard |
| `ChainWalk` | chain_walk.dfy | the cluster-after-cluster traversal shared by listing and copy |
| `EntryCodec` | entry_codec.dfy | `ChkSum`, `addDot`, `removeSpaces`, long-name fragments, record fields |
| `DirectoryRecords` | directory_records.dfy | record addresses, the order in which a directory's records are visited, and the backward long-name scan |
| `RootDirectory` | root_directory.dfy | `readRootDir`, with `numFiles` and `totalFileSize` |
| `ListingOrder` | listing_order.dfy | the DIR listing as the records of the chain taken in order |
| `FileLookup` | file_lookup.dfy | `readFile` |
| `FileExtractor` | file_extractor.dfy | `copyFile` |

The reader's imperative parts are imperative here as well:
- `ChkSum`, `addDot`, `removeSpaces` and `readFAT` work on arrays, as in C.
- The loops of `readRootDir`, `readFile` and `copyFile` are `while` loops.
- The C tail recursion on the next cluster becomes a loop.

Each method is proved equal to a specification function, and the properties are proved about those functions.

Where the code departs from Microsoft's FAT32 File System Specification, or from what a FAT32 reader is normally expected to do, the model follows the code:
- A name without an extension keeps its dot: `"NOEXT      "` is shown as `"NOEXT."` (`EntryCodec.ShortNameWithoutExtension`).
- No MBR or BPB signature or field is checked, so a malformed volume is read as it is.
- A volume label is a record whose attribute is exactly 0x08, not any record with bit 0x08 set.
- The long name is assembled in backward on-disk order. Sequence numbers are never read. The scan stops at the first record whose checksum differs, and that record's 13 units are kept too. A mismatch is not an error.
- FAT entries are not masked to 28 bits. They are read as signed `int` and widened. Reading the entry as signed or as unsigned gives the same result for the terminator test `>= 0x0FFFFFF7`. Masking would not: an entry 0x10000005 ends the chain here, where its 28-bit value 5 would continue it (`FatTable.ReadFat`).
- `copyFile` writes whole clusters and does not truncate to `DIR_FileSize`.
- The one strengthening is a visited set on every chain walk. A chain that comes back to a cluster ends with `CorruptChain` (`FatTable.TwoClusterCycle`); the reader has no such guard and would recurse until the stack overflows.

## Model

| member | source | states |
|---|---|---|
| Base.StrNEqMeaning | FAT32.c:535 | for NUL-free strings, `strncmp(a, b, n) == 0` holds exactly when they are equal, or both are at least `n` long and share their first `n` bytes |
| Base.SignExtend32 | FAT32.c:817-819 | a 32-bit entry read as `int` into `unsigned long` keeps its low 32 bits; values below 2^31 are unchanged, values at or above become at least 2^64 - 2^31 |
| SectorReader.ReadSector | FAT32.c:465-467 | a sector read succeeds exactly when the sector lies wholly in the image, and then yields its 512 bytes |
| SectorReader.ReadRecord | FAT32.c:405-413 | a record read succeeds exactly when the 32 bytes at `32 * index` lie in the image, and then yields them |
| SectorReader.RecordInSector | FAT32.c:405-413 | record `16 * s + j` is bytes `32 * j .. 32 * j + 31` of sector `s`, so record reads and sector reads never disagree |
| VolumeLayout.PartitionStartAsWritten | FAT32.c:185 | the partition start as the reader takes it: the low byte of the 32-bit LBABegin field |
| VolumeLayout.PartitionStart | FAT32.c:185 | the partition start as the whole little-endian LBABegin field, byte by byte |
| VolumeLayout.PartitionStartsAgree | FAT32.c:185 | the two readings agree exactly when the upper three bytes of LBABegin are zero |
| VolumeLayout.PartitionStartAt2048 | FAT32.c:185 | a partition at sector 2048 is taken by the reader to start at sector 0 |
| VolumeLayout.DataSectorStart | FAT32.c:207 | `reserved + numFATs * fatSize` in 32-bit arithmetic, exact when it does not overflow |
| VolumeLayout.Open | FAT32.c:171-207 | opening succeeds exactly when the MBR and the BPB sector lie in the image; every geometry field is the BPB field at its offset and width, and the data start is `reserved + numFATs * sectorsPerFAT` |
| VolumeLayout.DataRegionFollowsFats | FAT32.c:204-207 | without overflow, the data region starts after the reserved sectors and at least one whole FAT |
| VolumeLayout.FirstSectorExact | FAT32.c:771-773 | for data clusters of an on-disk geometry, `getFirstSector(c) == dataSectorStart + (c - 2) * sectorsPerCluster`, with no wrap-around |
| VolumeLayout.FirstSectorIncreasing | FAT32.c:771-773 | first sectors strictly increase with the cluster number; consecutive clusters are `sectorsPerCluster` sectors apart |
| VolumeLayout.ClusterSectorExact | FAT32.c:466 | sector `i` of cluster `c` is image sector `partitionStart + dataSectorStart + (c - 2) * sectorsPerCluster + i` |
| FatTable.FatSlot | FAT32.c:819 | the slot is below 128, and `cluster == 128 * (cluster / 128) + slot` |
| FatTable.ReadFat | FAT32.c:811-822 | the lookup succeeds exactly when the FAT sector lies in the image; the result's low 32 bits are the little-endian entry at `512 * sector + 4 * slot`, and it is a terminator exactly when that entry is |
| FatTable.ReadFAT | FAT32.c:811-822 | reading the FAT sector into `sectorBuffer` and taking slot `cluster % 128` gives `ReadFat` |
| FatTable.FatLocation | FAT32.c:814-819 | for clusters below 2^31, the entry is in sector `fatLBA + reservedSectors + cluster / 128`, at slot `cluster % 128` |
| FatTable.FatFrame | FAT32.c:814-821 | only the entry's four bytes affect the lookup |
| FatTable.ChainFresh | FAT32.c:747-753 | a chain starts at its first cluster, and no later cluster was visited before the walk |
| FatTable.ChainLinks | FAT32.c:747-753 | each cluster's FAT entry is the next cluster in the chain, and that entry is not a terminator |
| FatTable.ChainDistinct | FAT32.c:747-753 | no cluster occurs twice in a chain |
| FatTable.ChainEnd | FAT32.c:747-753 | the last cluster's lookup decides how a chain ends: a failed read ends it with that error, a terminator completes it, and anything else is an already visited cluster, which gives `CorruptChain` |
| FatTable.TwoClusterCycle | FAT32.c:747-753 | FAT[5] = 6, FAT[6] = 5 gives the chain [5, 6] ending with `CorruptChain` |
| ChainWalk.WalkFollowsChain | FAT32.c:747-753 | walking the FAT cluster by cluster is visiting the clusters of the chain in chain order |
| ChainWalk.OverComplete | FAT32.c:747-753 | a traversal completes exactly when the chain and every cluster visit complete, and its output is then the clusters' outputs concatenated |
| EntryCodec.RotateRightBits | FAT32.c:764 | the rotation moves the low bit to the top and the other bits down by one |
| EntryCodec.ChecksumOfPrefix | FAT32.c:757-767 | the checksum of the first `n` bytes depends on those bytes alone |
| EntryCodec.ChkSum | FAT32.c:757-767 | the loop over the 11 name bytes computes the rotate-and-add checksum |
| EntryCodec.ChecksumReadme | FAT32.c:757-767 | the checksum of `"README  TXT"` is 0x73 |
| EntryCodec.Dotted | FAT32.c:780-791 | names shorter than 3 are unchanged; otherwise a dot is inserted before the last three characters, and each other character keeps its order |
| EntryCodec.ShiftedLength | FAT32.c:786 | re-evaluating `strlen` in addDot's loop guard stops the loop exactly after the NUL has moved |
| EntryCodec.AddDot | FAT32.c:780-791 | addDot turns the C string in the array into its dotted form, followed by a NUL; the rest of the array is unchanged |
| EntryCodec.SpacesRemovedMultiset | FAT32.c:797-805 | exactly the spaces are removed: every other byte is kept with its multiplicity |
| EntryCodec.NoSpacesBytes | FAT32.c:797-805 | the result has no space, and no byte that was not in the name |
| EntryCodec.NoSpacesConcat | FAT32.c:797-805 | removing spaces works piece by piece, so the order of the kept characters is preserved |
| EntryCodec.NoSpacesKeeps | FAT32.c:797-805 | a name without spaces is unchanged, so removing spaces is idempotent |
| EntryCodec.RemoveSpaces | FAT32.c:794-808 | removeSpaces writes the string without its spaces and a NUL; the rest of the destination is unchanged |
| EntryCodec.ShortName | FAT32.c:520-530 | the normalised name has no space and no NUL, and at most 12 characters |
| EntryCodec.NormalizeName | FAT32.c:520-530 | copy, NUL-terminate, addDot, then removeSpaces yields `ShortName` |
| EntryCodec.ShortNameOfPadded | FAT32.c:526-530 | a padded 8.3 name becomes base, dot, extension (`"README  TXT"` becomes `"README.TXT"`) |
| EntryCodec.ShortNameWithoutExtension | FAT32.c:526-530 | a name with a blank extension keeps a trailing dot (`"NOEXT      "` becomes `"NOEXT."`) |
| EntryCodec.UnitOffset | FAT32.c:572-588 | unit `k` of a fragment lies inside the 32-byte record |
| EntryCodec.UnitByte | FAT32.c:574 | a 16-bit code unit stored in an unsigned char keeps its low byte |
| EntryCodec.FragmentUnits | FAT32.c:572-588 | a fragment gives 13 units, the low bytes of Name1[0..4], Name2[0..5] and Name3[0..1], in that order |
| EntryCodec.Classify | FAT32.c:650-664 | each record kind, stated both ways: long-name attribute first, then a deleted or empty first byte, then a volume label, then a regular file |
| EntryCodec.FirstCluster | FAT32.c:775-777 | the first cluster is below 2^32, with DIR_FstClusLO as its low 16 bits and DIR_FstClusHI as its high 16 |
| EntryCodec.FirstClusterAsWritten | FAT32.c:775-777 | getNextCluster's `int` computation, widened to `unsigned long` |
| EntryCodec.FirstClusterAgree | FAT32.c:775-777 | the two computations agree exactly when the high word is below 0x8000 |
| EntryCodec.FirstClusterSignExtends | FAT32.c:775-777 | high word 0x8000 and low word 0 give cluster 2^31, but the reader's computation gives 2^64 - 2^31 |
| EntryCodec.FileSize | FAT32.c:446 | DIR_FileSize as a 32-bit unsigned value |
| EntryCodec.CreationDate | FAT32.c:424-426 | day, month and year are the 5-, 4- and 7-bit fields of DIR_CrtDate; they reassemble it exactly, and the year counts from 1980 |
| EntryCodec.CreationTime | FAT32.c:430-431 | hour and minute are bits 11-15 and 5-10 of DIR_CrtTime |
| DirectoryRecords.SectorPlaces | FAT32.c:642 | the places of a sector's first `j` records are records `0 .. j - 1` of that sector, in order |
| DirectoryRecords.SectorPlacesMembers | FAT32.c:642 | a place is among a sector's first `j` records exactly when it is in that sector with index below `j` |
| DirectoryRecords.ClusterPlacesMembers | FAT32.c:639-642 | the places of a cluster are exactly the 16 records of each of its first `i` sectors |
| DirectoryRecords.ChainPlacesMembers | FAT32.c:639-751 | the places of a chain are exactly the records of the first `sectorsPerCluster` sectors of its clusters |
| DirectoryRecords.ScanFrom | FAT32.c:556-592 | a completed backward scan reads between 1 and `r` records, collects 13 units for each, and ends holding a 32-byte record |
| DirectoryRecords.ScanEnd | FAT32.c:561-592 | the scan ends at the first record, going back, whose checksum differs from the short name's; every record in between carries the checksum |
| DirectoryRecords.ScanUnits | FAT32.c:561-592 | the `m`-th record back from the short entry supplies units `13 * m .. 13 * m + 12` |
| DirectoryRecords.AppendFragment | FAT32.c:572-588 | the three copy loops append exactly the record's 13 fragment units |
| DirectoryRecords.ReadLongName | FAT32.c:556-592 | the do-while with `counter` computes `ScanFrom` |
| DirectoryRecords.LongNameOf | FAT32.c:692-734 | a long name is assembled exactly when the short name holds a '~', and it contains no NUL |
| DirectoryRecords.HasTilde | FAT32.c:686-696 | the flag is set exactly when the normalised name holds a '~' |
| DirectoryRecords.CopyName | FAT32.c:671-674 | the 12-byte array holds the record's 11 name bytes |
| DirectoryRecords.ReadLongNameOf | FAT32.c:671-734 | checksum, normalisation, '~' test and scan together compute `LongNameOf` |
| RootDirectory.RecordItem | FAT32.c:644-743 | a listed file carries its 32-byte record |
| RootDirectory.RecordItemKinds | FAT32.c:644-743 | from the record's bytes: attribute 0x0F, or a first byte 0 or 0xE5, gives nothing; otherwise attribute 0x08 gives the record as a volume label, attribute 0x20 a file with its record, its name cut at the NUL, dotted and without spaces, and a long name exactly when that name holds a '~', and any other attribute nothing; only the record's read, or the scan for a '~' name, can fail |
| RootDirectory.FileBytes | FAT32.c:446-447 | a file adds its DIR_FileSize read as a signed 32-bit `int`; a volume label adds nothing |
| RootDirectory.CountFiles | FAT32.c:446-447 | numFiles grows by exactly the number of files listed (FAT32.c:665), and totalFileSize ends as its start plus the exact sum of the listed files' sizes, modulo 2^64 |
| RootDirectory.ReadDirEntry | FAT32.c:644-743 | the per-record code computes `RecordItem` |
| RootDirectory.AddToListing | FAT32.c:446-447 | appending an item counts it and adds its size, as `Count` of the longer listing |
| RootDirectory.ListRecordInto | FAT32.c:642-644 | one record extends the sector listing by its contribution |
| RootDirectory.ListSectorInto | FAT32.c:642-744 | the 16-record loop appends the listing of the sector |
| RootDirectory.ListClusterInto | FAT32.c:639-745 | the sector loop appends the listing of the cluster |
| RootDirectory.ListChain | FAT32.c:626-753 | the cluster loop computes the walk over the chain, and the counters are `Count` of what was listed |
| RootDirectory.ReadRootDir | FAT32.c:626-753 | readRootDir yields `Listing`, with the globals updated as `Count` of it |
| ListingOrder.CollectAppend | FAT32.c:639-642 | listing two runs of records is listing the first, then the second |
| ListingOrder.CollectComplete | FAT32.c:642-744 | a listing of records completes exactly when every record is read, and then holds what they contribute, in order |
| ListingOrder.SectorCollect | FAT32.c:642-744 | the listing of a sector is the listing of its records in order |
| ListingOrder.ClusterCollect | FAT32.c:639-745 | the listing of a cluster is the listing of its records, sector by sector, in order |
| ListingOrder.OverCollect | FAT32.c:747-753 | listing a chain's clusters is listing all their records in order, and ends as the chain ends |
| ListingOrder.ListingFollowsChain | FAT32.c:626-753 | the DIR listing completes exactly when the chain ends at a terminator and every record of its clusters is read; it then holds what each record contributes, in cluster, sector and record order |
| FileLookup.ShortMatchMeaning | FAT32.c:535 | the short-name test holds when the normalised name equals the wanted name, and also when it has all 12 characters and only starts the wanted name |
| FileLookup.LongMatchMeaning | FAT32.c:602 | the long-name test holds exactly when the long name is a prefix of the wanted name, so an empty long name matches every name |
| FileLookup.Probe | FAT32.c:511-611 | a successful probe leaves a 32-byte record in `buffer` |
| FileLookup.ProbeMeaning | FAT32.c:511-611 | a record matches exactly when its short name passes the 12-character test or, with a '~', its long name is a prefix of the wanted name; the buffer then holds the record itself, unless only the short name matched after a scan |
| FileLookup.SectorSearchStops | FAT32.c:509 | once a record has matched or a read has failed, the later records of the sector change nothing |
| FileLookup.ClusterSearchStops | FAT32.c:506 | once a record has matched or a read has failed, the later sectors of the cluster change nothing |
| FileLookup.SectorSearchMiss | FAT32.c:509-613 | a sector ends without a match exactly when nothing matched before it and every record was read and missed; the state is then the last record's |
| FileLookup.SectorSearchHit | FAT32.c:509-613 | a match in a sector is its first matching record; every record before it was read and missed |
| FileLookup.SearchFollowsChain | FAT32.c:615-619 | following the FAT searches the chain's clusters in chain order and stops at the first match |
| FileLookup.SeekAppend | FAT32.c:506-509 | looking up two runs of records is looking up the first, then the second from where the first left off |
| FileLookup.SeekMiss | FAT32.c:506-613 | a lookup over records ends without a match exactly when it started without one and every record was read and missed |
| FileLookup.SeekHit | FAT32.c:506-613 | a lookup from no match matches exactly when some record is the first to match, and then ends with that record's state |
| FileLookup.SectorSeek | FAT32.c:509-613 | the lookup in a sector is the lookup over its records in order |
| FileLookup.ClusterSeek | FAT32.c:506-614 | the lookup in a cluster is the lookup over its records, sector by sector, in order |
| FileLookup.ClusterSearchMiss | FAT32.c:506-614 | a cluster ends without a match exactly when nothing matched before it and every record of its sectors was read and missed |
| FileLookup.ClusterSearchHit | FAT32.c:506-614 | a cluster matches exactly when one of its records is the first to match in sector, then record order, and then ends with that record's state |
| FileLookup.OverSeek | FAT32.c:615-619 | the lookup over a chain's clusters is the lookup over all their records in order; the chain's failure counts only when nothing matched |
| FileLookup.LookupFirstMatch | FAT32.c:491-622 | readFile finds the name exactly when some record of the directory's chain is the first to match in cluster, sector and record order, and then yields that record's probe; it ends without a match exactly when the chain ends at a terminator and every record was read and missed |
| FileLookup.ProbeRecord | FAT32.c:511-611 | one iteration of readFile's inner loop computes the record's probe |
| FileLookup.SearchSector | FAT32.c:509-613 | the record loop with `!fileRead` computes `SectorSearch` |
| FileLookup.SearchCluster | FAT32.c:506-614 | the sector loop with `!fileRead` computes `ClusterSearch` |
| FileLookup.SearchChain | FAT32.c:491-622 | the cluster loop computes `SearchFrom`, reading the FAT after every cluster |
| FileLookup.ReadFile | FAT32.c:491-622 | readFile computes `Lookup` |
| FileExtractor.ClusterBytes | FAT32.c:462-478 | a completely copied run of `i` sectors is `512 * i` bytes |
| FileExtractor.ClusterBytesComplete | FAT32.c:462-467 | a cluster is copied completely exactly when all its sectors lie in the image |
| FileExtractor.ClusterBytesLayout | FAT32.c:462-477 | bytes `512 * k .. 512 * k + 511` of a copied cluster are sector `firstSec + k + fatLBA` |
| FileExtractor.ExtractFollowsChain | FAT32.c:454-489 | a copy completes exactly when the chain completes and all its sectors lie in the image; its output is then the clusters' contents in chain order, `512 * sectorsPerCluster` bytes per cluster |
| FileExtractor.CopySector | FAT32.c:465-477 | fread into `sectorBuffer`, then 512 fputc calls, append exactly the sector's bytes |
| FileExtractor.CopyCluster | FAT32.c:462-478 | the sector loop appends the cluster's bytes |
| FileExtractor.CopyFile | FAT32.c:454-489 | copyFile writes `Extract` |

## Left out

- I/O: the image is a value, and the output stream is the returned byte sequence. `fopen`, `fseek` and `fread` become reads of the sequence. A read outside the image fails with `IoError`. The reader has no such error: it goes on, either with the stale buffer when the read starts past the end, or with the bytes from the start of the image when the seek to a negative `long` offset fails after the reset seek to offset 0.
- The command loop (`main`) is not part of this model. That includes choosing between DIR, EXTRACT and QUIT, naming the output file, taking the found entry's first cluster from `DIR_FstClusLO` alone, and the bounds of the user's input.
- printing and printFileEntry's formatting are not modelled: the locale-dependent size, the 12-hour clock and its assignment-for-comparison defect, and the volume-label printing loop. Only the date and time bit fields and the size are modelled.
- Wide-character output: code units are cut to their low byte, as the reader stores them. UTF-16 decoding is not modelled.
- DirectoryRecords.ScanFrom: the long name is an unbounded sequence. The reader's 255-byte `longFileName` array, its overflow on more than 19 fragments, and the uninitialised bytes in readRootDir's copy are not modelled.
- EntryCodec.NormalizeName: the arrays have 13 bytes, one more than the reader's 12, because addDot writes a 13th byte for an 11-character name. The overflow into the neighbouring variable is not modelled.
- RootDirectory.AddSize: the size is added only for 32-byte records. Every listed record has 32 bytes, so the other branch is never taken.
- FileLookup.SearchChain: once a record has matched, the FAT entry read after the cluster is ignored, as in the reader, and a failure of that read is ignored too.
- FatTable.ChainFrom: the cycle guard is the model's own. Where the reader recurses until the stack overflows, the model ends with `CorruptChain`.

## Findings

| source | as written | input that shows it | evidently intended | confidence | as-written member | corrected member |
|---|---|---|---|---|---|---|
| FAT32.c:185 | the partition start is `LBABegin[0]` alone | an MBR whose first partition starts at sector 2048 (LBABegin = 00 08 00 00) | the 32-bit little-endian LBABegin field | not executed | VolumeLayout.PartitionStartAsWritten (counterexample VolumeLayout.PartitionStartAt2048) | VolumeLayout.PartitionStart (used by VolumeLayout.Open unless `legacyOffset`; agreement in VolumeLayout.PartitionStartsAgree) |
| FAT32.c:776 | `(DIR_FstClusHI << 16) + DIR_FstClusLO` in `int`, widened to `unsigned long`. For DIR_FstClusHI >= 0x8000 the shift overflows `int`, which C leaves undefined; the as-written member takes the two's-complement outcome. getNextCluster is never called: main takes the first cluster from `DIR_FstClusLO` alone (FAT32.c:317), so the defect does not show in the program's behaviour | DIR_FstClusHI = 0x8000, DIR_FstClusLO = 0 | HI * 65536 + LO as an unsigned 32-bit value | not executed | EntryCodec.FirstClusterAsWritten (counterexample EntryCodec.FirstClusterSignExtends) | EntryCodec.FirstCluster (agreement in EntryCodec.FirstClusterAgree) |
