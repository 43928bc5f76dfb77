# thinfat core in Dafny

A Dafny model of the FAT16/FAT32 engine of thinfat (the RivieraWaves FAT driver). The model covers:

- the little-endian field decoders;
- volume recognition: the MBR partition scan, and validation and geometry of the BIOS parameter block (BPB);
- the single-sector write-back cache with FAT mirroring;
- the next-cluster lookup of the file allocation table;
- the cluster cursor, with seek, chain lookups and per-sector streaming;
- directory scanning: listing, short-name search and the long-name matcher;
- the byte bookkeeping of the file stream.

The engine is event-driven. Every component is a state machine that moves forward one completion at a time.

- **Component state.** Each component whose state the C code updates in place is a Dafny `class` with the same fields: `Volume.Filesystem`, `Cache.SectorCache`, `Table.TableWalker`, `Cursor.ClusterCursor`, `Dir.Directory` and `File.FileStream`.
- **Views and step functions.** Each class has a `View()` value and pure step functions on that value. Every method is proved against its step function: its `ensures` says that the new view is the step of the old one.
- **Properties.** The properties of the engine are lemmas about the step functions.
- **Device.** The block device is `Common.Device`, which records every read and write request in order. A device completion is a call of the component's completion method.
- **Replies.** What a step does next for its client is a `Reply`, one of three forms:
  - call the client back with (client, event, sector);
  - return a result of its own;
  - wait for a device completion.
- **Integers.** Every field is a 32-bit unsigned value. The C code's wrap-around (`Wrap32`), shifts (`Shr`, `LowBits`) and masks are written out explicitly.

### Behaviour the model keeps as written

- FAT32 entries are used raw, with no 28-bit mask.
- The cluster count subtracts the absolute data start `si_data`, which includes the hidden sectors, from the partition-relative `sc_volume_size`. The count is therefore short by `si_hidden >> cluster_shift`, and the subtraction wraps when a partition starts beyond its own length: a FAT16 partition starting at sector 2048 with 6000 clusters is not recognised, and a 100000-sector partition starting at sector 4000000 is taken for FAT32 (`Volume.HiddenSectorsSkewClassification`).
- FAT16 end-of-chain values (at least 0xFFF7) become the invalid-cluster sentinel.
- Directory scans skip a slot whose first byte is 0x00 instead of stopping there.
- The fixed FAT16 root region is read through `ctos(0)`, which wraps around.
- The long-name matcher reports an entry when the target is a prefix of the stored name, not only when the two are equal (`Dir.LongNameMatch`).
- `thinfat_file_read` computes its sector count from the length *before* the clamp to the file size.
- On the aligned read path, `thinfat_file_read` passes the sector number `si_read` where the cluster read expects a count.
- When a stream crosses a cluster boundary, the cursor seeks with itself as the client. This overwrites the original client and its event (`Cursor.StreamCrossingReplacesClient`).

### Where the code is mid-refactor

The code refers to fields and functions that are not declared. The model gives each one the meaning its use evidently intends:

- `tf->si_root` is the end of the FAT region. It is a `Volume` field that the BPB parse leaves unchanged.
- `blk->state` and `so_seek` are fields of the cursor.
- `tf->ctos_shift` is the cluster shift.
- `tf->cache` in the start of a lookup is the filesystem's table cache.
- `THINFAT_INVALID_SECTOR` is 0xFFFFFFFF.
- `thinfat_size_t` is 32 bits.
- `thinfat_blk_read_each_sector` is the four-argument version in `thinfat_blk.c`: it reads at the current position.
- In `thinfat_file.c`, the stale `tf->cur_file` and `blk.position` fields are the file's own fields. `user_buffer` and `buffer` are the buffer pointer, `byte_advance` is `advance`, `byte_pointer` is `position` and `byte_counter` is `counter`.
- At `thinfat_file.c:71`, the buffer pointer moves on from where it was, not from the start of the caller's buffer.
- At `thinfat_file.c:151`, the closing callback goes through `tf->event` and `tf->cur_file`. The model delivers the file's own client and event (`File.FileStream.WriteFinishCallback`).
- At `thinfat_file.c:159`, `file->so_current` and `file->ci_current` are taken to be the cursor's offset and current cluster.
- `thinfat_dir_entry_t` and `thinfat_lfn_entry_t` are not declared. The model reads the name bytes as unsigned. If `name` were a signed `char`, the tests `entry.name[0] != 0xE5` in `thinfat_dir.c` (lines 122, 157 and 190) would always hold, and deleted entries would not be skipped.

The modules follow the source files:

| module | file |
|---|---|
| Common | thinfat_common.h |
| Bytes | thinfat.h |
| Volume | thinfat.c |
| Cache | thinfat_cache.c |
| Table | thinfat_table.c |
| Cursor | thinfat_blk.c |
| DirEntry, Dir | thinfat_dir.c |
| File | thinfat_file.c |

## Model

| member | source | states |
|---|---|---|
| Common.ShrBounds | thinfat.c:5 | `x >> k` splits x into whole multiples of 2^k and a remainder below 2^k |
| Common.LowBits | thinfat_blk.c:158 | `x & ((1 << k) - 1)` is below 2^k, and together with `(x >> k) << k` it makes up x |
| Common.LowBitsPeriodic | thinfat_blk.c:158 | the masked offset repeats with period 2^k |
| Bytes.DecoderBounds | thinfat.h:51-69 | each decoder's value stays inside its width (2^8, 2^16, 2^24, 2^32) |
| Bytes.NarrowerDecoders | thinfat.h:51-69 | u24, u16 and u8 are the u32 read at the same offset reduced modulo 2^24, 2^16 and 2^8 |
| Bytes.DecodersAreLocal | thinfat.h:51-69 | a decoder reads only bytes o..o+width-1: two buffers that agree there decode alike |
| Bytes.DecodeEncodeU32 | thinfat.h:66-69 | decoding the little-endian image of a 32-bit value gives it back, and its u16 is the value mod 2^16 |
| Bytes.DecodeEncodeU16 | thinfat.h:56-59 | decoding the little-endian image of a 16-bit value gives it back |
| Bytes.EncodeDecodeU32 | thinfat.h:66-69 | the four bytes at o are exactly the little-endian image of the value read from them |
| Volume.DetermineTypeMonotone | thinfat.c:3-15 | the classification is monotone in the cluster count: below 4085 it is UNKNOWN, from 4085 up to 65525 it is FAT16, and from 65525 on it is FAT32, each an iff |
| Volume.ClusterCountInVolume | thinfat.c:5 | when si_data <= sc_volume_size the subtraction does not wrap, and the count is the number of whole clusters between sector si_data (absolute, hidden sectors included) and sector sc_volume_size (relative to the partition); it is the partition's cluster count only when si_hidden is 0 |
| Volume.HiddenSectorsSkewClassification | thinfat.c:5-12 | as written, a FAT16 partition at sector 2048 with 112 metadata sectors and 6000 one-sector clusters is classified Unknown, and a 100000-sector partition whose data starts at sector 4000112 wraps round to Fat32 |
| Volume.ZeroSecPerClusNeverStops | thinfat.c:34-38 | with BPB_SecPerClus = 0 the shift loop as written is still at value 0 after any number of turns, so its guard never fails |
| Volume.OddPart | thinfat.c:35-38 | the loop's result: an odd value times 2^shift gives back the input |
| Volume.PowerOfTwoRecognised | thinfat.c:34-43 | every power of two passes the check, with its exponent as the shift |
| Volume.PowerOfTwoShift | thinfat.c:34-43 | a value that passes the check is exactly `1 << cluster_shift` |
| Volume.ShiftBound | thinfat.c:34-43 | an 8-bit power of two gives a shift of at most 7 |
| Volume.DataStartExample | thinfat.c:75 | 2048 hidden + 32 reserved + 2 FATs of 1024 sectors, with no root entries, puts the data at 4128 |
| Volume.DataStartNoOverflow | thinfat.c:75 | without overflow, the root area in the data start is the least number of whole sectors that holds the root entries |
| Volume.BpbStep | thinfat.c:17-89 | the result is ERROR_SIGNATURE iff the signature is wrong, and then the volume is untouched. It is ERROR_BPB when BytsPerSec ≠ 512, and then the volume is untouched. It is OK iff the signature is right, BytsPerSec = 512 and SecPerClus is a power of two, with `1 << shift` = SecPerClus |
| Volume.ParsedVolume | thinfat.c:45-86 | the fields a valid BPB assigns leave si_hidden and si_root alone and take the given shift |
| Volume.BpbSizeFallback | thinfat.c:45-72 | TotSec16 = 0 falls back to the u32 at offset 32 and FATSz16 = 0 to the u32 at 36; reserved, FAT count, root entries and root cluster come from offsets 14, 16, 17 and 44 |
| Volume.BpbGeometry | thinfat.c:75-86 | after a successful parse, si_data is the data start, the type is the classification of the cluster count, and the current directory is ci_root on FAT32 and 0 otherwise |
| Volume.FirstFatPartition | thinfat.c:108-126 | the chosen record has a FAT type byte (0x04/0x06/0x0B/0x0C/0x0E) and no earlier record does; the result is None iff no record does |
| Volume.MbrExample | thinfat.c:108-118 | a type-0x0C record 0 starting at 0x800 is chosen with start 2048 |
| Volume.Filesystem.constructor | thinfat.c:146-150 | the device is recorded; thinfat_initialize assigns nothing else, and zero is the model's starting value for the volume fields |
| Volume.Filesystem.ReadMbrCallback | thinfat.c:98-129 | a bad signature gives ERROR_SIGNATURE and no FAT record gives NO_PARTITION, both leaving si_hidden and the device untouched; otherwise si_hidden is the start of the first FAT record and the BPB sector is requested |
| Volume.Filesystem.ReadParameterBlockCallback | thinfat.c:17-89 | result and new volume are those of BpbStep |
| Volume.Filesystem.CountClusterShift | thinfat.c:34-43 | for a positive SecPerClus, the shift counts its low zero bits and the odd part remains; for 0 it stops at once |
| Volume.Filesystem.AssignGeometry | thinfat.c:45-86 | the field writes after a valid cluster size give ParsedVolume |
| Cache.InitialSlot | thinfat_cache.c:39-47 | after init, the state is Invalid and both si_cached and si_replace are the invalid sector |
| Cache.ReadSingleFacts | thinfat_cache.c:49-85 | no request is issued iff the slot holds the sector (Clean or Dirty with si_cached = si_read). A hit delivers at once and changes nothing. A miss records client and event and issues one request: when the slot is dirty, the write-back of si_cached with si_replace := si_read; otherwise the read of si_read |
| Cache.MirrorNext | thinfat_cache.c:15-22 | a mirror write follows only for a sector in [hidden+reserved, si_root), and its target `s + sc_table_size` stays below si_root |
| Cache.ReadDone | thinfat_cache.c:10-13 | a read completion holds the completed sector, Clean, and delivers it to the recorded client with its event |
| Cache.WriteDone | thinfat_cache.c:14-34 | a write completion writes the next mirror while one remains. After that: if si_replace = si_cached, it becomes Clean with no read; if si_replace is another valid sector, that sector is read; if si_replace is invalid, it becomes Invalid with si_cached invalid |
| Cache.Completion | thinfat_cache.c:5-37 | dispatch on the tag: READ and WRITE completions as above, any other tag returns OK and changes nothing |
| Cache.FilledSectorHits | thinfat_cache.c:58-62 | a sector just read in is answered from the cache with no request and no change, so it keeps being answered |
| Cache.CleanMissDelivers | thinfat_cache.c:54-68 | a miss on a cache that is not dirty is one device read away from delivering the sector to the client that asked |
| Cache.DirtyMissDelivers | thinfat_cache.c:70-81 | a dirty miss writes back the held sector; after the last mirror, the requested sector is read and delivered clean, so a dirty sector is never dropped unwritten |
| Cache.MirrorWriteKeepsSlot | thinfat_cache.c:15-22 | while mirrors remain, a write completion issues exactly one write and does not report to the client |
| Cache.MirrorChain | thinfat_cache.c:15-22 | for a positive table length whose sums do not wrap, every sector the chain of mirror writes reaches lies below si_root, so the chain is finite |
| Cache.NoMirrorBelowZeroRoot | thinfat_cache.c:15-22 | with si_root 0, as it is from the constructor on since nothing assigns it, no sector has a next FAT copy, so no write-back is repeated |
| Cache.ZeroTableLengthRewritesItself | thinfat_cache.c:15-22 | with sc_table_size 0, the completed write of a sector between the reserved area and si_root issues the same write again and leaves the slot unchanged, so the chain does not end |
| Cache.MirrorChainSteps | thinfat_cache.c:15-22 | from a table sector `remaining` table lengths before si_root, the chain is exactly `remaining` writes at s + (i+1)·sc_table_size |
| Cache.MirrorChainCoversCopies | thinfat_cache.c:15-22 | on a layout of reserved area, then `redundancy` FAT copies, then root, writing back sector off of copy k writes the same sector of every later copy, in order |
| Cache.SectorCache.constructor | thinfat_cache.c:39-47 | a fresh 512-byte buffer and the initial slot |
| Cache.SectorCache.CachedReadSingle | thinfat_cache.c:49-85 | the new slot, the requests appended to the device log and the reply are those of ReadSingle |
| Cache.SectorCache.Callback | thinfat_cache.c:5-37 | the new slot, the requests and the reply are those of Completion on the filesystem's current geometry |
| Table.EntriesPerSector | thinfat_table.c:42 | `512 >> type` gives 256 entries a sector on FAT16 and 128 on FAT32 |
| Table.EntryOffset | thinfat_table.c:15-20 | the entry's offset plus its width stays inside the sector |
| Table.DecodeEntry | thinfat_table.c:13-25 | on FAT16 the entry is valid iff the u16 is below 0xFFF7, is then that u16, and is otherwise INVALID_CLUSTER; on FAT32 it is the raw u32 |
| Table.EntryPlacement | thinfat_table.c:15-42 | the sector index times 512 plus the offset is c·width, and the offset `(c·width) % 512` is `(c mod entries-per-sector)·width` |
| Table.LookupReadsEntry | thinfat_table.c:12-46 | with the FAT as one byte array, the entry decoded from the sector the lookup reads is the little-endian value at byte c·width, normalised on FAT16 |
| Table.Fat32HighBitsEndChain | thinfat_table.c:13-16 | with no 28-bit mask, a FAT32 entry with any of its top four bits set ends the chain |
| Table.TableWalker.constructor | thinfat_table.c:30-37 | Idle, with a fresh empty cache on the filesystem's device |
| Table.TableWalker.Lookup | thinfat_table.c:39-47 | client, event and ci_target are recorded, and the cache is asked for TableSector(ci_target) with the lookup tag |
| Table.TableWalker.Callback | thinfat_table.c:5-28 | the state returns to Idle. On a lookup completion, the decoded entry goes to the recorded client with its event; any other tag gives OK |
| Cursor.InitialCursor | thinfat_blk.c:71-78 | after init the cursor is Idle |
| Cursor.OpenStep | thinfat_blk.c:80-89 | BLK_BUSY iff not idle, and then nothing changes; otherwise ci_head = ci_current = ci and so_current = 0 |
| Cursor.RewindStep | thinfat_blk.c:99-107 | BLK_BUSY iff not idle, and then nothing changes; otherwise ci_current = ci_head and so_current = 0 |
| Cursor.SeekStepFacts | thinfat_blk.c:109-149 | (1) A busy cursor refuses. (2) The seek answers at once iff it is in the root region, in the same cluster index, or in cluster index 0. It then lands on the target and hands it to the client, going back to ci_head only for a different cluster index. (3) Otherwise it records the request, restarts from the head iff moving backward, and looks up the next cluster from an earlier cluster index. (4) It never reads data |
| Cursor.LookupDone | thinfat_blk.c:20-39 | a lookup completion replaces ci_current by the entry and advances so_current by 2^shift; it seeks on when the entry is valid and returns EOF otherwise |
| Cursor.LookupStep | thinfat_blk.c:20-39 | one completion of a seek d clusters short: with d = 1 it answers at the target; otherwise it reads the next table sector |
| Cursor.SeekRun | thinfat_blk.c:109-149 | over a valid chain, a forward seek takes exactly `(target>>shift) − (so_current>>shift)` lookups and ends d clusters along it, at the target, answering the client |
| Cursor.ReadEachSectorStep | thinfat_blk.c:151-165 | busy refuses and changes nothing; otherwise it records client, event and count, and reads the sector at ctos(ci_current) + (so_current mod 2^shift) |
| Cursor.ReadSingleDone | thinfat_blk.c:40-53 | ABORT from the client becomes OK and stops; any other non-OK result is passed up; OK decrements sc_read (mod 2^32) and, while it is positive, seeks to so_current+1 |
| Cursor.ReadSingleLookupDone | thinfat_blk.c:54-56 | reads on with the remembered client, count and event |
| Cursor.StreamCrossingReplacesClient | thinfat_blk.c:44-56 | a stream that crosses a cluster boundary overwrites the recorded client and event with the cursor itself and the read-on tag |
| Cursor.CtosStocRoundTrip | thinfat_blk.c:61-69 | for c ≥ 2 with no wrap, stoc(ctos(c)) = c |
| Cursor.StocWithinCluster | thinfat_blk.c:61-64 | every sector of data cluster index m maps back to cluster m+2, so stoc(ctos(c)+k) = c for all k < 2^shift |
| Cursor.CtosNoWrap | thinfat_blk.c:66-69 | without wrap, ctos is (c−2)·2^shift + si_data |
| Cursor.StocNoWrap | thinfat_blk.c:61-64 | without wrap, stoc is ((si − si_data) >> shift) + 2 |
| Cursor.StocCtosRoundTrip | thinfat_blk.c:61-69 | a data sector maps to its cluster and back to that cluster's first sector |
| Cursor.ReadStaysInCluster | thinfat_blk.c:158 | every sector the cursor reads lies in its current cluster |
| Cursor.ReadCyclesInCluster | thinfat_blk.c:158 | streaming a whole cluster further without a lookup reads the same sector again |
| Cursor.RootRegionAddress | thinfat_blk.c:66-69 | the FAT16 root at cluster 0 is read from si_data − 2·2^shift modulo 2^32 |
| Cursor.ClusterCursor.constructor | thinfat_blk.c:71-78 | Idle, with a fresh cache of its own on the table cache's device |
| Cursor.ClusterCursor.Open | thinfat_blk.c:80-89 | result and new view are those of OpenStep |
| Cursor.ClusterCursor.Rewind | thinfat_blk.c:99-107 | result and new view are those of RewindStep |
| Cursor.ClusterCursor.StartLookup | thinfat_blk.c:91-97 | the table cache is asked for the sector holding ci_current's entry with the lookup tag |
| Cursor.ClusterCursor.Seek | thinfat_blk.c:109-149 | the new view, the table cache's state and requests, and the reply are those of SeekStep |
| Cursor.ClusterCursor.ReadEachSector | thinfat_blk.c:151-165 | the new view, the data cache's state and requests, and the reply are those of ReadEachSectorStep |
| Cursor.ClusterCursor.LookupCallback | thinfat_blk.c:20-39 | LookupDone with the entry decoded from the table cache |
| Cursor.ClusterCursor.ReadSingleCallback | thinfat_blk.c:40-53 | ReadSingleDone with the client's answer |
| Cursor.ClusterCursor.ReadSingleLookupCallback | thinfat_blk.c:54-56 | ReadSingleLookupDone |
| DirEntry.LongNameIsHidden | thinfat_dir.c:18 | the long-name attribute has the hidden and system bits set |
| DirEntry.DecodeEntryLocal | thinfat_dir.c:50-58 | decoding a slot reads only its 32 bytes |
| DirEntry.DecodeEncodeEntry | thinfat_dir.c:50-58 | decoding a slot image gives back attr (byte 11), the 11 name bytes, ci_head = (u16@20 << 16) \| u16@26 and size = u32@28 |
| DirEntry.LfnOffsetsLayout | thinfat_dir.c:64-69 | the 13 units lie at increasing offsets, do not overlap, and miss ordinal, attribute, type, checksum and cluster word |
| DirEntry.LfnOffsetsRuns | thinfat_dir.c:64-69 | the units come in runs of five at 1, six at 14 and two at 28 |
| DirEntry.DecodeLfnEntry | thinfat_dir.c:60-72 | the three loops give order = byte 0, checksum = byte 13 and the 13 units at offsets 1,3,5,7,9,14,…,24,28,30 |
| DirEntry.RootSectorCount | thinfat_dir.c:45-48 | the root area is the least number of whole sectors that holds root_entry_count 32-byte entries |
| DirEntry.RootSectorCountExample | thinfat_dir.c:45-48 | 512 entries take 32 sectors, 1 entry one sector, 0 entries none |
| Dir.WStrLen | thinfat_dir.c:38-43 | the length indexes a NUL |
| Dir.WStrLenStops | thinfat_dir.c:38-43 | no unit before the length is NUL, so it is the first NUL |
| Dir.TargetLength | thinfat_dir.c:205 | the target length, taken as unsigned 32-bit, stays within the target |
| Dir.Wstrlen | thinfat_dir.c:38-43 | the loop returns the index of the first NUL |
| Dir.SlotEntry | thinfat_dir.c:118-121 | slot i is the 32 bytes at i·32, and its first name byte is that slot's first byte |
| Dir.Listing | thinfat_dir.c:118-140 | at most one line per slot, in slot order |
| Dir.FreeSectorListsNothing | thinfat_dir.c:122 | free slots (0x00, 0xE5) are skipped, not ends: a sector of them lists nothing |
| Dir.StoredEntryListed | thinfat_dir.c:135-138 | a visible short entry stored in a slot is listed with its name, first cluster and size |
| Dir.FirstMatch | thinfat_dir.c:153-173 | the reported slot lies in the sector |
| Dir.FirstMatchIsFirst | thinfat_dir.c:153-173 | the search reports a matching slot with no match before it, or nothing when no slot matches |
| Dir.FirstMatchAt | thinfat_dir.c:153-173 | conversely, a matching slot with no match before it is the one reported |
| Dir.FragmentsNeverMatch | thinfat_dir.c:157-159 | a long-name slot never matches a short-name search |
| Dir.StoredEntryFound | thinfat_dir.c:145-176 | a visible entry stored under the target's 11 bytes, with no earlier match, is reported to the client with ABORT |
| Dir.ModularIndices | thinfat_dir.c:202-208 | the fragment start `13·(ord&0x1F)−13` and the unit index are unsigned 32-bit sums |
| Dir.MatchLen | thinfat_dir.c:206-209 | the comparison count lies between its start and 13 |
| Dir.MatchLenStops | thinfat_dir.c:206-209 | every unit up to where the comparison stops agrees, and the one it stops at does not |
| Dir.LfnStepBounds | thinfat_dir.c:196-215 | a fragment leaves its checksum, and after a restart (0x40 bit, new checksum, count > 255) the count is at most 13 or is the match mark 256 |
| Dir.LongSlotStepFacts | thinfat_dir.c:217-225 | a candidate short entry is reported iff the count is > 255, and then with the count reset to 0; otherwise it is passed over with the count kept |
| Dir.LongScanReportsSlot | thinfat_dir.c:186-227 | a report carries a candidate short entry of one of the slots scanned, with the count 0 |
| Dir.FragmentCount | thinfat_dir.c:202 | a name of n units takes ceil(n/13) fragments, at most 20 |
| Dir.Fragments | thinfat_dir.c:192-215 | the stored fragments of a name, last one first |
| Dir.FragmentUnitsAgree | thinfat_dir.c:206-209 | comparing a stored fragment with the target counts exactly the leading units that agree |
| Dir.FragmentStep | thinfat_dir.c:196-215 | one stored fragment keeps the count equal to the agreeing prefix length, or marks the match |
| Dir.FeedInvariant | thinfat_dir.c:192-215 | after the first i fragments of a stored name, the count reflects agreement of the target with those units |
| Dir.EmptyTargetFeed | thinfat_dir.c:211-214 | with an empty target every fragment marks a match |
| Dir.AgreeMeansPrefix | thinfat_dir.c:206-209 | agreement over all fragments is the target being a prefix of the name |
| Dir.LongNameMatch | thinfat_dir.c:192-225 | after the fragments of a stored name, from any start state, the count marks a match (> 255) iff the target is a prefix of that name |
| Dir.ScanLength | thinfat_dir.c:74-84 | the root area's sector count for the root directory, 0xFFFFFFFF otherwise |
| Dir.Directory.constructor | thinfat_dir.h:36 | no client, count 0 and empty targets |
| Dir.Directory.Traverse | thinfat_dir.c:74-84 | rewinds the cursor, then streams ScanLength sectors to the directory with the tag, as ReadEachSectorStep after RewindStep |
| Dir.Directory.Dump | thinfat_dir.c:86-91 | records client and event, then traverses with the dump tag |
| Dir.Directory.Find | thinfat_dir.c:93-99 | records client, event and short target, then traverses with the find tag |
| Dir.Directory.FindByLongname | thinfat_dir.c:101-108 | records client, event and wide target, resets the count to 0, then traverses |
| Dir.Directory.DumpCallback | thinfat_dir.c:110-143 | the end of the stream is forwarded to the client; a sector gives OK and its Listing |
| Dir.Directory.DumpSector | thinfat_dir.c:118-140 | the loop lists the whole sector |
| Dir.Directory.DumpSlot | thinfat_dir.c:120-139 | the loop body prints the slot's line |
| Dir.Directory.FindCallback | thinfat_dir.c:145-176 | the end is forwarded; a first matching slot is reported with ABORT; no match gives OK |
| Dir.Directory.FindSector | thinfat_dir.c:153-173 | the loop finds FirstMatch |
| Dir.Directory.ShortSlot | thinfat_dir.c:155-171 | the loop body says whether the slot matches |
| Dir.Directory.SameName | thinfat_dir.c:161-166 | the byte loop reports equality of the 11 name bytes |
| Dir.Directory.FindByLongnameCallback | thinfat_dir.c:178-230 | the reply, the hit and the new count and checksum are those of LongResult |
| Dir.Directory.LongSector | thinfat_dir.c:186-227 | the slot loop computes LongScan |
| Dir.Directory.LongSlot | thinfat_dir.c:188-226 | the loop body computes LongSlotStep |
| Dir.Directory.FeedFragment | thinfat_dir.c:194-215 | the fragment branch computes LfnStep |
| Dir.Directory.MatchFragment | thinfat_dir.c:206-209 | the comparison loop computes MatchLen |
| Dir.Directory.Callback | thinfat_dir.c:24-36 | dispatch by tag: dump, find and long-name as above, other tags OK; only the long-name search changes the count and checksum |
| File.SpliceFacts | thinfat_file.c:60 | a memcpy keeps the length, puts the source in the window and leaves every other byte |
| File.CopyInto | thinfat_file.c:60 | the array afterwards is the Splice of the old contents |
| File.ReadLengthClamps | thinfat_file.c:160-161 | the clamped length stays at most the request; inside the file the read ends at the file's end at the latest, and a request that fits is kept; past the end, `size − position` wraps and cuts only to 2^32 − (position − size) |
| File.SectorSpanIsCeiling | thinfat_file.c:158 | without wrap, sc_read is ceil((position mod 512 + length)/512) |
| File.Ceil512 | thinfat_file.c:158 | the ceiling bounds |
| File.ReadCountIgnoresClamp | thinfat_file.c:158-161 | the count comes from the unclamped length: a 1024-byte read of a 100-byte file counts 2 sectors, where the clamped read touches 1 |
| File.SectorSpanWraps | thinfat_file.c:158 | near 2^32 the sum wraps: a 0xFFFFFFFF-byte read at 1 counts 0 sectors |
| File.ReadCountCovers | thinfat_file.c:158-161 | without wrap the count covers every sector the clamped read touches |
| File.WrapMod512 | thinfat_file.c:170 | reduction modulo 2^32 keeps the offset in the sector |
| File.WholeSectorsIff | thinfat_file.c:170 | the direct path is taken iff both ends of the request are multiples of 512 |
| File.WriteSectorCountIsFloor | thinfat_file.c:184-196 | without wrap, the write count is floor((position mod 512 + length)/512): the whole sectors the request covers |
| File.WritePlanCases | thinfat_file.c:197-211 | whole sectors from an aligned position write clusters; whole sectors from an unaligned position read one sector first with the prepare tag; none reads one sector with the finish tag |
| File.SectorShare | thinfat_file.c:52-70 | the bytes taken from a sector stay within both the request and the rest of the sector |
| File.HandoffAsWrittenOverruns | thinfat_file.c:41-48 | the hand-off as written picks the caller's buffer whenever the position is aligned: a 100-byte read at position 0 gets the 100-byte caller's buffer for a whole 512-byte sector |
| File.Handoff | thinfat_file.c:75-82 | the corrected hand-off picks the caller's buffer only at an aligned position, and only with room for a whole sector in it |
| File.ReadStep | thinfat_file.c:33-86 | a callback copies at most the bytes still to come |
| File.ShareCopy | thinfat_file.c:52-70 | the copied bytes are at most the share |
| File.ReadEndAndAsk | thinfat_file.c:35-49 | the end of the stream reports to the client and changes nothing; a null slot is pointed by Handoff and changes nothing |
| File.ReadFilledFacts | thinfat_file.c:50-83 | a data callback takes `min(512 − position mod 512, advance)` bytes, up to the end of the request or of the sector. The copy is the sector's bytes from the offset, except when the caller's buffer received a whole sector directly. counter + advance is kept modulo 2^32. The next slot is pointed as the hand-off rule |
| File.ShareEndsAligned | thinfat_file.c:52-73 | a callback that stops short of the end leaves the position aligned |
| File.NextBufferIsHandoff | thinfat_file.c:75-82 | where the data branch points the next slot is where the hand-off rule would |
| File.CounterPlusRemainder | thinfat_file.c:72-74 | moving bytes from advance to counter keeps their sum modulo 2^32 |
| File.ReadStepKeepsRoom | thinfat_file.c:33-86 | with the corrected hand-off every step keeps the buffer pointer plus the remainder inside the caller's buffer, and a hand-off of that buffer always has a whole sector of room |
| File.ReadRunDrains | thinfat_file.c:33-86 | as many data callbacks as the request touches sectors deliver all of it: the remainder reaches 0 and position, counter and pointer advance by the request |
| File.AdvancedTwice | thinfat_file.c:71-74 | two advances are one advance by their sum |
| File.FinishFacts | thinfat_file.c:139-152 | the write finish takes the smaller of the rest of the sector and the remainder, and it advances position and counter by that but leaves advance alone |
| File.FileStream.constructor | thinfat_file.h:30-31 | at position 0, with nothing in flight |
| File.FileStream.Read | thinfat_file.c:154-178 | records client, event, clamped advance, sc_read from the unclamped length and counter 0. A request of whole sectors reads clusters directly from the current sector; any other goes through the cursor's cache with the prepare tag |
| File.FileStream.ReadCallback | thinfat_file.c:33-86 | the new bookkeeping, reply and slot pointer are those of ReadStep, and the caller's buffer afterwards is the old one with the step's copy spliced in at the pointer |
| File.FileStream.TakeShare | thinfat_file.c:50-83 | the data branch: the share is copied in and the bookkeeping advances by it |
| File.FileStream.CopyShare | thinfat_file.c:52-70 | the two copying branches move the share into the caller's buffer |
| File.FileStream.Write | thinfat_file.c:180-212 | records client, event, advance = length and counter 0, then follows WritePlan: write clusters, or read one sector through the cursor with the plan's tag |
| File.FileStream.WriteCount | thinfat_file.c:184-196 | the count is WriteSectorCount |
| File.FileStream.WriteFinishCallback | thinfat_file.c:139-152 | the cached sector receives the share of the caller's bytes at the position's offset, the bookkeeping is FinishStep, and the client is called back |

## Left out

- The physical layer (`thinfat_phy.c`, `thinfat_phy_posix.c`), the wrappers (`thinfat_wrap*.h`, `thinfat_wrap.c`) and `main.c` are not part of this model. The device is an abstract request log, and completions are calls of the components' methods.
- Logging (`THINFAT_INFO`, `THINFAT_ERROR`, `printf`) is I/O and is dropped.
- `thinfat_mount`, `thinfat_unmount` and `thinfat_finalize` only start the MBR read or return OK; the MBR and BPB completions they lead to are modelled. `thinfat_read_parameter_block` is the request that `ReadMbrCallback` appends to the log.
- `thinfat_blk_read_all` and `thinfat_blk_write_all` have empty bodies and are not modelled.
- `thinfat_blk_read_each_cluster` and `thinfat_blk_write_each_cluster` are called but have no body. The file stream returns them as `Next` values instead.
- `thinfat_cache_touch` has no body, so the write finish leaves the cache bookkeeping as it was and does not mark the slot dirty.
- `thinfat_file_read_prepare_callback` and `thinfat_file_write_prepare_callback` are not modelled. The first calls only the cluster read that has no body. The second works on the stale `tf->cur_file` and copies a whole sector's rest without the commented-out clamp.
- `thinfat_write_file_callback` has a name and signature that match no declaration, and is not modelled. The dispatch `thinfat_file_callback` is not modelled either: the data callbacks are called directly.
- `si_write` in `thinfat_file_write` is computed but never used, so it is left out.
- `thinfat_file_init` and `thinfat_file_open` are declared without a body. `File.FileStream.constructor` stands in for them with a neutral state. Likewise `thinfat_dir_init` is declared without a body, and `Dir.Directory.constructor` stands in for it.
- `Option<seq<u8>>` stands for the `*(void **)p_param` sector pointer of the directory callbacks; None is the end of the stream.
- The short-name search compares the first 11 bytes of the target, so the model requires a target of at least 11 bytes. The C code reads past a shorter string.
- The directory keeps one untyped `target_name` pointer. The model keeps two fields, one for the 11-byte short name and one for the wide long name.
- `wchar_t` is taken as a 16-bit unit.
- `tf->si_root` is never assigned, so from `Volume.Filesystem.constructor` on it stays 0 and no table write is mirrored (`Cache.NoMirrorBelowZeroRoot`). The mirroring lemmas are stated for any `Volume`, with si_root as a parameter.
- The table completion returns OK for any other tag. The source's function has no return on that path.
- Dir.Directory.DumpCallback: the listing is returned as values (`Line`s), not printed.
- Cursor.ClusterCursor.ReadSingleCallback: the client's answer is a parameter, because the callback into the client is a call into code the engine does not see.

## Findings

| source | as written | input that shows it | evidently intended | confidence | as-written member | corrected member |
|---|---|---|---|---|---|---|
| thinfat.c:34-43 | the loop `for (shift = 0; !(SecPerClus & 1); SecPerClus >>= 1)` never stops when BPB_SecPerClus is 0 | a BPB with signature 0xAA55, BytsPerSec 512 and SecPerClus 0 | reject a zero cluster size with ERROR_BPB, like any other non-power of two | high, not executed | Volume.ZeroSecPerClusNeverStops | Volume.BpbStep |
| thinfat_file.c:41-48 | on a null slot the caller's buffer is handed to the device whenever the position is aligned, even with fewer than 512 bytes to come | a 100-byte read at position 0 of a 100-byte file: the device writes 512 bytes into a 100-byte buffer | hand over the caller's buffer only when a whole sector remains, as the data branch does at line 75 | medium, not executed | File.HandoffAsWrittenOverruns | File.Handoff |
