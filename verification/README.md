# ArkForge verification project

A Dafny model of the parts of ArkForge on which a destructive firmware write
rests, with proofs of what those parts promise.  `dafny verify dfyconfig.toml`
checks all of it.

## What is modelled

**The import pipeline.**  A firmware bundle is a gzip container around a tar
archive, read once, in a stream, through a hasher.

- `CanonicalCode`, `Huffman`, `BitReader`, `InflateSpec`, `Inflate`: the DEFLATE
  decoder.  The reference decoder works on a list of bits and an unbounded
  history; the modelled one works with a bit buffer, a nine-bit reversed table
  with a slow walk behind it, and an output window that is compacted to 32 KiB.
  Both accept the same streams and yield the same bytes, for every sequence of
  positive read sizes.  Incomplete code sets are accepted, as the code does,
  although its comment speaks of one exceptional case; only over-subscribed ones
  are refused.
- `Crc32`, `Gzip`, `GzipReads`, `GzipStored`: the checksum against its bit-serial
  definition, the container, runs of reads of any sizes, and the fixture writer of
  stored blocks.
- `Text`, `TarSpec`, `Pax`, `TarReader`, `Bundle`: the strict tar reader on top, down
  to the statement that a successful inspection verified the container's trailer
  and hashed every byte although two buffering readers sit above the hasher.
- `TarBuilder`, `RoundTrip`: the ustar writer, and the full print/parse round trip
  through all four layers.
- `Scanner`, `ScannerChunking`: build facts found in a member that arrives in arbitrary
  chunks, and exactly when the chunks do not matter.
- `Mtdparts`, `PartitionTable`: the partition table grammar and its validation.
- `Inspect`: all of these together, from the bytes of a container to its manifest or
  the reason of its refusal.

**Durable stores.**

- `PlanStorage`: immutable plan files as a step system of racing writers, failing
  operations and crashes.
- `Cas`: the content store with quota, leases and garbage collection.
- `DigestText`, `Wire`, `ManifestMessages`, `ManifestCache`: the cached manifest, from
  hex digits and varints up to the agreement of cache and parser.

**Safety protocols around writes.**

- `Recovery`: when a replacement plan is accepted, and that running it forgets what
  an interrupted job may have left.
- `MaintenanceSource`, `Maintenance`, `RestorationExample`: verification and
  restore-once over a port that may answer anything, with a concrete run.
- `WritePartition`: the chunked partition write down to single WRITE_LBA commands,
  and the difference between "no effect" and "unknown".
- `Session`, `Upload`: controller and daemon over one connection, each of which may
  fail at any moment, and what an upload leaves in the store.

`Bits`, `Chunks`, `Indices`, `Results`, `Seal`, `Strings` and `Widths` hold what
several modules share.
`Seal.Look` is a mark: an invariant guarded by it is opened only where a proof
mentions it.  Several methods take a ghost function that equals a reference
function (`next`, `apply`, `members`); this keeps the reference from being unfolded
inside a loop and changes nothing about what is stated.

## What turned out not to hold, and exactly when it does

- An early return of `persist` syncs nothing: two callers of one identifier with
  different plans can both succeed across a crash (`PlanStorage.EarlyReturnIsNotDurable`).
  An acknowledged plan survives whatever comes exactly when a directory sync, or a
  boot that found the name, followed the link of its name
  (`PlanStorage.SurvivesIffSyncFollowed`).
- The scanner's comment says the tail covers the longest key and its value bound.
  It does not count the equals sign: a 256-byte value of a 19-byte key can be missed,
  depending on the chunking (`Scanner.MissesWhenCutThere`).  A key that occurs once is
  found under every chunking exactly when its text up to the byte that decides it fits
  the tail (`ScannerChunking.UniqueIff`).  When the key is repeated, a first fact that
  fits the tail is recorded under every chunking exactly when no other text is decided
  before it (`ScannerChunking.ChunkingIff`, `Scanner.RepeatedKey`).  An unquoted value that
  only the end of the member decides always loses to a quoted one inside it
  (`ScannerChunking.NeverTheFirst`, `ScannerChunking.EndDecidedGivesInner`).
- Partition overlap is not seen when the left entry's end does not fit 64 bits
  (`PartitionTable.OverlapAccepted`); on all other pairs the check is exact, whatever
  the end of the right entry is, and an accepted table is a layout exactly when no
  entry reaches into an earlier one of that kind (`PartitionTable.ValidateLayout`).
- The store's ceiling is checked against the declared size only.  Below the largest
  ceiling a declaration is safe exactly for streams that are no longer than it
  (`Cas.CeilingSafeIff`, `Cas.CeilingBroken`).  With the largest ceiling, 2^64 - 1, the
  saturating sum refuses nothing (`Cas.LargestCeiling`).
- The walk over pax records adds the cursor and a declared length in machine words and
  stops the process when the sum overflows; it answers exactly when that does not
  happen to any record it comes to (`Pax.AnswersIff`, `Pax.WalkStops`).
- A response message loses empty unclassified names; it survives its encoding exactly
  when there are none (`ManifestMessages.ResponseRoundTrip`).  A cache file of such a
  manifest is a miss unless the shortened one has the same digest
  (`ManifestCache.CacheDecodes`).
- An octal field whose text fills it loses its last digit; the value comes back
  exactly when it leaves room for the NUL (`TarBuilder.FieldReads`).
- A read of the gzip reader into an empty buffer is taken for the end of the stream.
  At the start it marks the trailer as verified exactly on eight zero bytes, which are
  no valid stream (`GzipReads.EmptyFirstRead`, `GzipReads.EmptyReadVerifies`); while all
  buffers are non-empty a verified trailer means what it says (`GzipReads.ReadRun`).
- An upload that was cut off between two frames becomes an object exactly when its
  request named no digest, unless the part has the digest of the whole
  (`Upload.ImportTruncated`).
- The read-back of a restoration may end after the restoration's own deadline.  It is
  sure to be inside exactly when the clock did not advance between measuring the time
  left and starting to count it (`Maintenance.ReadBackInsideBudgetIff`); with any advance
  there is a reported restoration that is late (`RestorationExample.LateRestoration`).

## Model

| member | source | states |
|---|---|---|
| CanonicalCode.PrefixFree | crates/arkforge-artifact/src/inflate.rs:67-100 | For every length vector that is not over-subscribed, no symbol's canonical code (section 3.2.2 of RFC 1951) is a prefix of another's |
| CanonicalCode.UniqueMatch | crates/arkforge-artifact/src/inflate.rs:252-279 | At most one symbol's code starts any bit string |
| CanonicalCode.DecodeExact | crates/arkforge-artifact/src/inflate.rs:252-279 | The reference decoder answers `s` exactly when the next bits are the code of `s` |
| CanonicalCode.AcceptedIffKraft | crates/arkforge-artifact/src/inflate.rs:67-76 | The running over-subscription test accepts exactly the vectors that satisfy Kraft's inequality; incomplete sets are accepted |
| Huffman.CountLengths | crates/arkforge-artifact/src/inflate.rs:58-65 | The count table is the number of symbols of each length; a length above 15 is refused |
| Huffman.CheckNotOversubscribed | crates/arkforge-artifact/src/inflate.rs:67-76 | The loop decides exactly the canonical acceptance condition |
| Huffman.SortSymbols | crates/arkforge-artifact/src/inflate.rs:78-89 | The symbol array lists the used symbols by length and then by value |
| Huffman.FirstTables | crates/arkforge-artifact/src/inflate.rs:91-100 | First code and first index of every length are the canonical ones |
| Huffman.ReverseBits | crates/arkforge-artifact/src/inflate.rs:135-141 | The loop reverses exactly the low bits of the value |
| Huffman.FillSlots | crates/arkforge-artifact/src/inflate.rs:111-118 | Exactly the nine-bit windows that start with the reversed code are overwritten |
| Huffman.FastTable | crates/arkforge-artifact/src/inflate.rs:102-123 | An entry of the nine-bit table names the symbol whose code starts that window, and is empty when no short code does |
| Huffman.NewTable | crates/arkforge-artifact/src/inflate.rs:57-132 | A table is built exactly for the accepted vectors, and then represents the canonical code |
| BitReader.CountingSource.Read | crates/arkforge-artifact/src/dayu200.rs:460-467 | Whatever sizes the source yields, the hasher and the counter have seen exactly the bytes handed on |
| BitReader.Reader.NextByte | crates/arkforge-artifact/src/inflate.rs:172-187 | The byte buffer is a window on the source: bytes come out in order and none is lost at a refill |
| BitReader.Reader.Take | crates/arkforge-artifact/src/inflate.rs:202-213 | Returns the next bits as a number, least significant first, and drops exactly those bits from the stream |
| BitReader.Reader.Peek | crates/arkforge-artifact/src/inflate.rs:215-231 | Shows the next bits, zero-filled past the end, without consuming any |
| BitReader.Reader.AlignToByte | crates/arkforge-artifact/src/inflate.rs:233-237 | Drops exactly the rest of the current byte of the stream |
| BitReader.Reader.ReadAligned | crates/arkforge-artifact/src/inflate.rs:239-250 | Reads whole bytes through the bit buffer and then the source, as if there were no buffer |
| BitReader.Reader.DecodeSymbol | crates/arkforge-artifact/src/inflate.rs:252-279 | Table lookup plus slow walk return symbol `s` and consume its length exactly when the next bits are its code, also near the end of the input |
| BitReader.Reader.WalkLong | crates/arkforge-artifact/src/inflate.rs:261-278 | The slow walk finds the match of any length above the table width, or reports that there is none |
| BitReader.Reader.DrainRemaining | crates/arkforge-artifact/src/inflate.rs:282-297 | What is drained is the byte-aligned rest of the stream, up to 4097 bytes |
| InflateSpec.BackWithinWindow | crates/arkforge-artifact/src/inflate.rs:22-35 | Every back-reference a block can express reaches between 1 and 32768 bytes |
| InflateSpec.DistancesTileWindow | crates/arkforge-artifact/src/inflate.rs:29-35 | The thirty distance codes tile the distances from 1 to 32768 without gap or overlap |
| Inflate.Reader.Compact | crates/arkforge-artifact/src/inflate.rs:357-363 | Compaction keeps the last 32768 bytes and everything undelivered, so the decoded history is unchanged |
| Inflate.Reader.ReadStoredHeader | crates/arkforge-artifact/src/inflate.rs:374-386 | The stored-block header is accepted exactly when its length and its complement agree |
| Inflate.Reader.ReadDynamicHeader | crates/arkforge-artifact/src/inflate.rs:403-462 | The code lengths of a dynamic block are those of section 3.2.7 of RFC 1951, with the same refusals as the reference decoder |
| Inflate.Reader.StartBlock | crates/arkforge-artifact/src/inflate.rs:365-466 | Opens the block that the reference decoder opens, from the same bits |
| Inflate.Reader.CopyFrom | crates/arkforge-artifact/src/inflate.rs:536-544 | The copy inside the compacted window appends what the copy on the unbounded history appends |
| Inflate.Reader.DecodeBlock | crates/arkforge-artifact/src/inflate.rs:506-549 | A Huffman block is decoded up to the wanted bytes exactly as the reference decoder does |
| Inflate.Reader.Fill | crates/arkforge-artifact/src/inflate.rs:469-504 | Filling stays on the run of the reference decoder and ends with enough bytes or the end of the stream |
| Inflate.Reader.Read | crates/arkforge-artifact/src/inflate.rs:553-567 | A read of any positive size delivers the next bytes of the reference output, and nothing only at its end |
| Inflate.Reader.ReadToEnd | crates/arkforge-artifact/src/inflate.rs:469-567 | For every stream and every sequence of positive read sizes the decoder accepts exactly when the unbounded-history decoder accepts, and yields the same bytes |
| Crc32.RoundsLinear | crates/arkforge-artifact/src/inflate.rs:604-622 | The shift register is linear, which is why a table of 256 entries suffices |
| Crc32.RoundsAreSerial | crates/arkforge-artifact/src/inflate.rs:604-622 | Eight register rounds after adding a byte equal feeding its bits one by one |
| Crc32.BuildTable | crates/arkforge-artifact/src/inflate.rs:604-622 | Every table entry is eight register rounds of its index |
| Crc32.ByteStep | crates/arkforge-artifact/src/inflate.rs:586-593 | One table step equals eight bit-serial steps of section 8 of RFC 1952 |
| Crc32.Running.Update | crates/arkforge-artifact/src/inflate.rs:586-593 | Updating over any split of the data is updating over the whole |
| Crc32.Running.Finalize | crates/arkforge-artifact/src/inflate.rs:595-597 | The result is the bit-serial reflected CRC-32 of everything seen |
| Gzip.ReadHeader | crates/arkforge-artifact/src/inflate.rs:690-738 | The header reader accepts, refuses and stops exactly where section 2.3 of RFC 1952 with the code's limits says, for every chunking of the source |
| Gzip.Reader.constructor | crates/arkforge-artifact/src/inflate.rs:729-737 | The reader starts on the meaning of the bytes behind the header |
| Gzip.Reader.VerifyTrailer | crates/arkforge-artifact/src/inflate.rs:744-778 | The trailer is accepted only when CRC-32 and length match the payload, and then the source is exhausted |
| Gzip.Reader.Read | crates/arkforge-artifact/src/inflate.rs:782-797 | With positive sizes an empty answer means: whole stream decoded, checksum and length verified, nothing behind the trailer; with an empty buffer the answer, and the verified mark, are the trailer check on what was handed out, what was decoded and what is left |
| GzipReads.ReadRun | crates/arkforge-artifact/src/inflate.rs:782-797 | For every list of read sizes: as long as no buffer was empty before the end, a failure is the stream's own and a verified trailer means that the whole stream was handed out |
| GzipReads.EmptyFirstRead | crates/arkforge-artifact/src/inflate.rs:553-556 | For every body: a first read into an empty buffer marks the trailer as verified exactly when eight zero bytes follow the header, and that stream is invalid |
| GzipReads.EmptyReadVerifies | crates/arkforge-artifact/src/inflate.rs:782-797 | A whole stream on which one empty read leaves the trailer verified although the stream is refused |
| Gzip.Reader.ReadUpTo | crates/arkforge-artifact/src/tar.rs:414-428 | Repeated reads deliver a prefix of the payload, short only at the verified end |
| GzipStored.WriteStored | crates/arkforge-artifact/src/fixture.rs:123-148 | The loop writes the stored-block container of the data, block limit, complements and trailer included |
| GzipStored.StoredBlocksInflate | crates/arkforge-artifact/src/fixture.rs:128-141 | The reference decoder turns the written blocks back into the data and stops right behind them |
| GzipStored.RoundTrip | crates/arkforge-artifact/src/fixture.rs:123-148 | Unpacking what the stored-block writer wrote returns the data, for all data |
| Strings.SplitJoin | crates/arkforge-artifact/src/tar.rs:508-538 | Splitting a joined path returns its components |
| TarSpec.AcceptedPathIsPlain | crates/arkforge-artifact/src/tar.rs:491-538 | An accepted path has no empty, `.` or `..` component, no leading slash, no backslash and no control character, and is within the length bound |
| TarSpec.AcceptedPathIsFixed | crates/arkforge-artifact/src/tar.rs:491-538 | Normalizing is idempotent, so two spellings of one member meet in one recorded path |
| TarSpec.ComputePadding | crates/arkforge-artifact/src/tar.rs:465-468 | The padding completes the body to whole blocks |
| TarReader.CheckSum | crates/arkforge-artifact/src/tar.rs:540-560 | The one-pass sums decide exactly the checksum rule, signed sums of older writers included |
| TarReader.ReadOctal | crates/arkforge-artifact/src/tar.rs:562-587 | Octal and base-256 fields are read with the overflow refusals of the reference |
| TarReader.ReadPax | crates/arkforge-artifact/src/tar.rs:362-412 | Walking the records with a cursor equals applying them one after the other, the overflow of cursor plus length included |
| Pax.AnswersIff | crates/arkforge-artifact/src/tar.rs:380-384 | For every body the walk answers exactly when each record it comes to is refused by its length alone or ends at a machine word, and then it answers as if sums could not overflow |
| Pax.StopsBehind | crates/arkforge-artifact/src/tar.rs:380-384 | Behind any good record, any length that reaches past the last machine word makes the sum overflow |
| Pax.WalkStops | crates/arkforge-artifact/src/tar.rs:380-384 | A body of one good record and the largest length on which the sum overflows |
| TarReader.Reader.SkipPending | crates/arkforge-artifact/src/tar.rs:302-338 | Exactly the rest of the current member and its padding is skipped, or the archive is refused |
| TarReader.Reader.CheckNoTrailingData | crates/arkforge-artifact/src/tar.rs:430-455 | Success means that nothing but zeros follows and that the container's trailer was verified |
| TarReader.Reader.StepHeader | crates/arkforge-artifact/src/tar.rs:203-264 | One header block leads to the member, the overrides or the refusal the reference says |
| TarReader.Reader.NextMember | crates/arkforge-artifact/src/tar.rs:166-264 | The next regular file is the reference's next file, with the unread rest and the paths seen; the end is a clean, verified end |
| TarReader.Reader.ReadMemberBody | crates/arkforge-artifact/src/tar.rs:269-300 | The chunks handed to the sink are at most 64 KiB and concatenate to the declared body; a short stream is a size mismatch |
| Bundle.ReadMembers | crates/arkforge-artifact/src/tar.rs:166-300 | Alternating headers and bodies to the end returns the reference's member list, or its first refusal |
| Bundle.ReadArchive | crates/arkforge-artifact/src/dayu200.rs:290-303 | On success checksum and length were verified, the members are those of the payload, and count and hash cover every input byte; a failure is a refusal of the container, or of the archive in the bytes that could be decoded of it |
| Inspect.TakeMember | crates/arkforge-artifact/src/dayu200.rs:312-384 | One member: its role, the parameter text, and the facts of its scan; a refusal is a parameter file that is no text or an image that contradicts an earlier one |
| Inspect.Conclude | crates/arkforge-artifact/src/dayu200.rs:386-436 | The table is the parsed and valid one of the parameter file, and each unknown is listed exactly when it is open |
| Inspect.CollectMembers | crates/arkforge-artifact/src/dayu200.rs:305-385 | The member loop: what it collects describes all members of the archive; a refusal of the archive is one of the bytes that can be decoded, and a refusal of the loop has its reason in the members read so far or in the one read next |
| Inspect.InspectContainer | crates/arkforge-artifact/src/dayu200.rs:290-438 | For every container and every chunking: a manifest describes the members of a verified container of which every byte was hashed; a failure is a refusal of the container, of the archive in what could be decoded of it, or of one of its members |
| Inspect.ProductionIff | crates/arkforge-artifact/src/dayu200.rs:417-421 | A manifest claims production exactly when every member is classified, a parameter file is among them and some image yielded a fact |
| Inspect.FactsAreGenuine | crates/arkforge-artifact/src/dayu200.rs:347-365 | Every fact of a manifest stands in an image member |
| Inspect.TableIsLayout | crates/arkforge-artifact/src/dayu200.rs:387-392 | The table of a manifest names a device and is a disjoint layout when every end but the last fits |
| TarBuilder.WriteOctal | crates/arkforge-artifact/src/fixture.rs:116-120 | The slice holds the padded octal text and a NUL, and nothing else of the header changes |
| TarBuilder.FieldReads | crates/arkforge-artifact/src/fixture.rs:116-120 | Reading a written field gives the value exactly when the value leaves room for the NUL; otherwise its last digit is lost |
| TarBuilder.ChecksumHolds | crates/arkforge-artifact/src/fixture.rs:99-104 | The written checksum is the one the reader expects, whatever the header holds |
| TarBuilder.WriteHeader | crates/arkforge-artifact/src/fixture.rs:80-104 | The header filled in place is the ustar header of the name and the size |
| TarBuilder.HeaderReads | crates/arkforge-artifact/src/fixture.rs:79-107 | The reader sees a written header as that path, that size and mode 0644 |
| TarBuilder.Builder.AddFile | crates/arkforge-artifact/src/fixture.rs:79-107 | The archive grows by the entry of the file |
| TarBuilder.Builder.Finish | crates/arkforge-artifact/src/fixture.rs:109-113 | The result is the archive of all files added, in order, with its end marker |
| TarBuilder.RoundTrip | crates/arkforge-artifact/src/fixture.rs:79-120 | For all files with distinct normal paths, reading the written archive returns them |
| RoundTrip.WriteAndRead | crates/arkforge-artifact/src/fixture.rs:79-148 | Writing with both fixture writers and reading with both streaming readers returns exactly those paths, sizes and bodies in order, and the hasher has seen the whole container |
| Scanner.NeverTruncated | crates/arkforge-artifact/src/dayu200.rs:567-583 | A claimed value ends at a terminator, a closing quote or the end of the bytes, never earlier |
| Scanner.Decided | crates/arkforge-artifact/src/dayu200.rs:567-583 | Bytes that arrive later do not change a value that is already decided |
| Scanner.Find | crates/arkforge-artifact/src/dayu200.rs:590-608 | The result is the first occurrence, or there is none |
| Scanner.NoOverlap | crates/arkforge-artifact/src/dayu200.rs:516-539 | Two occurrences of one key never overlap, so scanning on behind one loses none |
| Scanner.FirstFact | crates/arkforge-artifact/src/dayu200.rs:516-539 | The loop over one key finds the first occurrence that yields a fact |
| Scanner.BuildFactScanner.Push | crates/arkforge-artifact/src/dayu200.rs:494-510 | A push is one scan of the retained tail and the chunk; it keeps every recorded fact genuine, misses none whose text fits the tail, and records the leading occurrence where there is one |
| Scanner.BuildFactScanner.Finish | crates/arkforge-artifact/src/dayu200.rs:541-545 | At the end every recorded fact is a fact of the whole member |
| Scanner.ScanMember | crates/arkforge-artifact/src/dayu200.rs:486-546 | For every chunking the result describes the whole member and is what the pushes and the final scan make of it |
| Scanner.EveryChunking | crates/arkforge-artifact/src/dayu200.rs:494-510 | The first fact of a key, when its text up to the deciding byte fits the tail and no later occurrence is decided before it, is recorded under every chunking |
| Scanner.LaterDecidedFirst | crates/arkforge-artifact/src/dayu200.rs:516-539 | When a later occurrence is decided before the first fact is, a cut behind it gives a later fact; one chunk gives the first fact when a byte decides that, and a later one when only the end of the member does |
| ScannerChunking.ChunkingIff | crates/arkforge-artifact/src/dayu200.rs:494-546 | The condition for that is exact: a first fact whose text fits the tail is recorded under every chunking if and only if, whatever part of the member has arrived before its deciding byte, the first fact decided there has the same text |
| ScannerChunking.UniqueIff | crates/arkforge-artifact/src/dayu200.rs:494-546 | A key that occurs once is found under every chunking if and only if its text up to the deciding byte fits the tail |
| ScannerChunking.NeverTheFirst | crates/arkforge-artifact/src/dayu200.rs:516-546 | When only the end of the member decides the first fact and a byte decides a later one, no chunking records the first |
| ScannerChunking.EndDecidedGivesInner | crates/arkforge-artifact/src/dayu200.rs:516-546 | For every key of the parser's kind there is such a member: under every chunking the quoted value inside an unquoted one is recorded |
| Scanner.RepeatedKey | crates/arkforge-artifact/src/dayu200.rs:516-539 | For every key of the parser's kind, a member with the key inside its own quoted value gives different facts under two chunkings |
| Scanner.MissesWhenCutThere | crates/arkforge-artifact/src/dayu200.rs:499-509 | The bound is exact: one byte more, and a chunk ending at the deciding byte makes the scanner miss the value |
| Scanner.BuildFactKeysFit | crates/arkforge-artifact/src/dayu200.rs:37-46 | The parser's three keys meet the scanner's demands and the tail is 275 bytes |
| Mtdparts.HexRoundTrip | crates/arkforge-artifact/src/dayu200.rs:227-235 | A printed number parses to itself, with any number of leading zeros |
| Mtdparts.EntryRoundTrip | crates/arkforge-artifact/src/dayu200.rs:158-225 | A printed partition descriptor parses to the same entry |
| Mtdparts.ParsedEntryConforms | crates/arkforge-artifact/src/dayu200.rs:158-225 | Whatever descriptor is accepted, the entry is one the grammar can express |
| Mtdparts.ParseParameter | crates/arkforge-artifact/src/dayu200.rs:117-156 | The loop parses the list the grammar denotes, or reports its first error |
| Mtdparts.TableRoundTrip | crates/arkforge-artifact/src/dayu200.rs:117-225 | Printing a conforming table and parsing the text returns the table |
| Mtdparts.ParsedTableConforms | crates/arkforge-artifact/src/dayu200.rs:117-225 | The parser's range is within the conforming tables |
| Mtdparts.ReprintIsStable | crates/arkforge-artifact/src/dayu200.rs:117-225 | Printing and parsing again is the identity on everything the parser can return |
| PartitionTable.Validate | crates/arkforge-artifact/src/manifest.rs:205-235 | Accepts exactly when names are distinct, sizes are in order and no compared pair clashes |
| PartitionTable.AcceptedIffDisjoint | crates/arkforge-artifact/src/manifest.rs:221-233 | The comparison is disjointness of the sector sets on exactly the pairs whose left end fits, the remainder open-ended |
| PartitionTable.DisjointIffNothingMissed | crates/arkforge-artifact/src/manifest.rs:222-224 | All extents are disjoint exactly when the compared ones are and no entry reaches into an earlier one whose end does not fit |
| PartitionTable.ValidateLayout | crates/arkforge-artifact/src/manifest.rs:205-235 | For every table: acceptance is exactly distinct names, non-zero sizes, a remainder only at the end and disjointness of the compared pairs; with every end but the last fitting it is exactly a disjoint layout |
| PartitionTable.OverflowIsNotCompared | crates/arkforge-artifact/src/manifest.rs:160-163 | A left entry whose end does not fit is never compared, whatever it overlaps |
| PartitionTable.OverlapAccepted | crates/arkforge-artifact/src/manifest.rs:221-233 | A table of two overlapping partitions that passes all checks |
| PlanStorage.StepInv | cmd/arkforged/src/plan_storage.rs:91-137 | Every file operation, failure, early return and crash, in any interleaving, keeps the invariant |
| PlanStorage.Immutable | cmd/arkforged/src/plan_storage.rs:111-118 | No step but a crash changes the file under a published name or that file's bytes |
| PlanStorage.NeverChanges | cmd/arkforged/src/plan_storage.rs:91-137 | In every run without a crash a published name keeps its bytes |
| PlanStorage.PublishedIsComplete | cmd/arkforged/src/plan_storage.rs:91-137 | In every reachable state, after crashes too, a published name holds some caller's complete, synced bytes |
| PlanStorage.DurableForever | cmd/arkforged/src/plan_storage.rs:111-120 | A plan whose call synced the directory itself stays published with those bytes through any number of crashes |
| PlanStorage.SuccessesAgree | cmd/arkforged/src/plan_storage.rs:91-137 | Successful callers of one identifier agree with every caller that synced the directory, across crashes, and with each other since the last boot |
| PlanStorage.AcknowledgedIsPublished | cmd/arkforged/src/plan_storage.rs:91-137 | Whatever was acknowledged is published with the caller's bytes at that time |
| PlanStorage.SurvivesIffSynced | cmd/arkforged/src/plan_storage.rs:94-96 | An acknowledged plan is published after every later run, crashes included, exactly when its name is on the medium |
| PlanStorage.SurvivesIffSyncFollowed | cmd/arkforged/src/plan_storage.rs:91-137 | On runs: that is exactly when a directory sync, or a boot that found the name, followed the link of its name |
| PlanStorage.EarlyReturnIsNotDurable | cmd/arkforged/src/plan_storage.rs:94-96 | For any two different plans there is a run in which both callers of one identifier succeed, the first by the early return before a crash |
| PlanStorage.Open | cmd/arkforged/src/plan_storage.rs:40-73 | Loading succeeds exactly when every entry does, and returns one plan for each published name, in order, with its file's bytes |
| PlanStorage.LoadsAfterAnyRun | cmd/arkforged/src/plan_storage.rs:40-73 | After any run every entry loads, whatever a crash left in the staging files |
| PlanStorage.OpenAfterAnyRun | cmd/arkforged/src/plan_storage.rs:40-73 | After any run a listing of the directory loads, gives each published plan once, and holds every acknowledged plan |
| Recovery.CheckTargets | cmd/arkforged/src/recovery_assessment.rs:326-367 | The loop accepts exactly when every target holds, and its running maximum is the last verification |
| Recovery.ValidateCandidate | cmd/arkforged/src/recovery_assessment.rs:271-425 | Accepts exactly the plans that meet the declarative decision |
| Recovery.AcceptedShape | cmd/arkforged/src/recovery_assessment.rs:306-405 | With distinct targets, effects, write steps and verify steps are each in bijection with the targets; each write precedes its verification, all verifications precede the reboot, and only the postflight follows |
| Recovery.EveryEffectIsATarget | cmd/arkforged/src/recovery_assessment.rs:306-347 | By the counts, every effect is the one content-bound write of some target |
| Recovery.RecoveryForgets | cmd/arkforged/src/recovery_assessment.rs:336-387 | Two devices that differ only where the interrupted job may have written are the same device after the accepted plan has run |
| Recovery.UncoveredIsKept | cmd/arkforged/src/recovery_assessment.rs:368-387 | A byte that no step writes stays as the job left it |
| MaintenanceSource.ValidateSource | crates/arkforge-arkdeck-adapter/src/maintenance.rs:160-257 | Accepts exactly the snapshots that meet the declarative decision |
| MaintenanceSource.EveryReceiptIsAStep | crates/arkforge-arkdeck-adapter/src/maintenance.rs:194-217 | Every receipt of an accepted snapshot belongs to a completed step |
| MaintenanceSource.RestorationCoversAllTargets | crates/arkforge-arkdeck-adapter/src/maintenance.rs:218-256 | A restoration source seals each of the nine targets exactly once |
| Maintenance.CheckIdentity | crates/arkforge-arkdeck-adapter/src/maintenance.rs:258-273 | Passes exactly when the identity is the source's and the clock was inside the budget before and after |
| Maintenance.ReadAll | crates/arkforge-arkdeck-adapter/src/maintenance.rs:287-327 | Every turn is bracketed by passed checks, or bracketed up to the one that lost continuity and silent behind it |
| Maintenance.Verify | crates/arkforge-arkdeck-adapter/src/maintenance.rs:276-343 | For every port: it stops before the reading for the reason that its last event shows, or all effects are gone through behind an accepted intent, one record decides the answer, and a failed target is failed for what its own reading shows or for the loss that its failed check shows |
| Maintenance.OneResultPerEffect | crates/arkforge-arkdeck-adapter/src/maintenance.rs:105-123 | One result per sealed effect in order, and verified, skipped and failed add up to their number |
| Maintenance.VerifiedMeansBracketed | crates/arkforge-arkdeck-adapter/src/maintenance.rs:297-311 | One verified target implies that every read of the run stood between two matching checks inside the budget |
| Maintenance.LossFailsEverything | crates/arkforge-arkdeck-adapter/src/maintenance.rs:321-334 | After the first loss nothing more is read and every target is failed |
| Maintenance.ExitZeroMeansVerified | README.md:139-141 | Exit 0 means that every image range matched |
| Maintenance.Prepare | crates/arkforge-arkdeck-adapter/src/maintenance.rs:412-464 | A reservation is reached only through source validation, an identity check, the plan checks and a second identity check; a stop on the way has the reason that the last event shows |
| Maintenance.Restore | crates/arkforge-arkdeck-adapter/src/maintenance.rs:403-502 | For every port: invalid input reaches no port; otherwise one final record, at most one dispatch, and that one on the reservation just taken; the recorded result is a read-back success, or a stop for the reason that the last events show |
| Maintenance.RestoredMeansReadBack | crates/arkforge-arkdeck-adapter/src/maintenance.rs:477-492 | A reported restoration was read back: a separate reading of the pinned ramdisk hashed in full to the pinned content, between identity checks before the inner deadline |
| Maintenance.ReadBackInsideBudgetIff | crates/arkforge-arkdeck-adapter/src/maintenance.rs:469-492 | With the events up to the start of the confirming verification fixed, every reported restoration that goes on from there is read back inside the restoration's own budget if and only if the clock did not advance between measuring what is left and starting to count it |
| RestorationExample.LateRestoration | crates/arkforge-arkdeck-adapter/src/maintenance.rs:403-502 | For every pair of jobs, every budget and every time that passes between the two clock readings there is a reported restoration whose last reading is at the restoration's own deadline |
| WritePartition.WrittenOnce | cmd/arkforged/src/dispatch.rs:1135-1161 | Every sector of the range is written by exactly one command, with the bytes that belong there |
| WritePartition.NothingBeyond | cmd/arkforged/src/dispatch.rs:1135-1161 | No command touches a sector outside the range |
| WritePartition.Loader.WriteLba | crates/arkforge-provider/src/rockusb_protocol.rs:146-184 | The commands cover the sectors of the bytes contiguously within 32-bit addresses, zero-filling only the last sector; nothing is sent exactly on a local refusal, and a transport failure is one of the last command |
| WritePartition.SendAll | cmd/arkforged/src/dispatch.rs:1125-1161 | All chunks together are contiguous and carry exactly the bytes read; a failure is called before I/O exactly when nothing was sent, and each has its reason in the file or in the last command |
| WritePartition.Write | cmd/arkforged/src/dispatch.rs:1083-1200 | A success put bytes with the staged digest on exactly the sectors that belong to them; a failure is called before I/O exactly when no command was begun; every failure has its reason in the request, the file or the last command |
| WritePartition.Dispatch | cmd/arkforged/src/dispatch.rs:779-846 | No effect is confirmed exactly when no WRITE_LBA was begun; a success put the whole file on the medium, and the staged image itself when no other image of its size has its digest; an unknown outcome has its reason in the last command or the file |
| Session.StepInv | crates/arkforge-client/src/controller.rs:342-431 | Every step of client and daemon, failures included, keeps the session invariant |
| Session.ReturnedAnswersItsRequest | crates/arkforge-client/src/controller.rs:356-381 | A returned payload was computed for that very request frame |
| Session.ReturnedImportDelivered | cmd/arkforged/src/main.rs:404-413 | A completed import handed the daemon's reader exactly the declared bytes |
| Session.ReusedConnectionIsClean | crates/arkforge-client/src/controller.rs:378-392 | A connection kept for the next request has nothing unread in either direction |
| Session.NothingAfterFailure | crates/arkforge-client/src/controller.rs:348-355 | After a failed exchange nothing is sent any more |
| Session.StreamArtifact | crates/arkforge-client/src/controller.rs:404-431 | The frames carry exactly the declared size and the end mark; a shorter file fails after its whole frames, a longer one after the declared size, both without the end mark |
| Session.ContentStream.Read | cmd/arkforged/src/main.rs:443-474 | One read takes the next bytes of the current or next frame; the end mark ends the stream, and so does a connection closed behind a frame, while one that breaks inside a frame fails |
| Session.ContentStream.ReadAll | cmd/arkforged/src/main.rs:443-474 | Reading to the end with any positive sizes delivers the bytes that were sent, with the end mark or without it, unless the connection broke |
| Upload.ImportUpload | cmd/arkforged/src/service/parts/requests.rs:78-132 | What was uploaded is published exactly when the store takes it, whether the upload ended with its mark or the connection was closed behind some frame |
| Upload.ImportTruncated | cmd/arkforged/src/service/parts/requests.rs:102-119 | Unless the part has the file's own digest, a truncated upload becomes an object exactly when the connection was closed between frames and the request named no digest, within the store's limits |
| Upload.SendAndImport | crates/arkforge-client/src/controller.rs:404-431 | A file of the declared size is imported whole, however the connection ends; one that changed in between is never imported whole, and a part of it only without a digest |
| Cas.TotalWithout | crates/arkforge-artifact/src/cas.rs:481-489 | The total does not depend on the order in which objects are listed |
| Cas.Store.TotalBytes | crates/arkforge-artifact/src/cas.rs:481-489 | The loop computes the total, and overflows exactly when the total is no 64-bit word |
| Cas.Store.CheckSpace | crates/arkforge-artifact/src/cas.rs:185-220 | Accepts exactly when size limit, ceiling and reserve allow, with saturating sums; overflows exactly when the stored total does |
| Cas.Store.Import | crates/arkforge-artifact/src/cas.rs:222-316 | A success publishes exactly the streamed bytes under their digest and adds their size; a failure publishes nothing and has its reason; below the largest ceiling the ceiling holds while no object was added by an import longer than declared |
| Cas.Store.AcquireLease | crates/arkforge-artifact/src/cas.rs:378-389 | Succeeds exactly for a stored object, a well-formed holder and a successful write, adds that holder and leaves others alone |
| Cas.Store.ReleaseLease | crates/arkforge-artifact/src/cas.rs:391-399 | Fails exactly for a malformed holder or a failing removal; otherwise that holder and no other is gone, held or not |
| Cas.Store.CollectGarbage | crates/arkforge-artifact/src/cas.rs:422-455 | A complete collection leaves exactly the held objects and the total before is the total after plus the bytes reclaimed; an interrupted one removed unheld objects only, and some operation of it failed |
| Cas.Store.VerifyObject | crates/arkforge-artifact/src/cas.rs:363-375 | For every store and every chunking of the file the answer is whether the object hashes to its address; in a store that only these operations touched it does |
| Cas.CeilingSafeIff | crates/arkforge-artifact/src/cas.rs:185-210 | Below the largest ceiling, a declaration keeps every store under its ceiling exactly when the stream is no longer than declared, or no ceiling admits it |
| Cas.LargestCeiling | crates/arkforge-artifact/src/cas.rs:195-200 | With the largest ceiling the saturating sum refuses nothing, and the ceiling holds exactly when the plain sum does not overflow |
| Cas.CeilingBroken | crates/arkforge-artifact/src/cas.rs:222-260 | For every hash, every stream and every shorter declaration there is a store that publishes the stream above its ceiling |
| Wire.VarintRoundTrip | crates/arkforge-ipc/src/wire.rs:107-117 | Every 64-bit value survives the varint encoding |
| Wire.FieldsRoundTrip | crates/arkforge-ipc/src/wire.rs:255-300 | Reading an encoded message returns its fields |
| ManifestMessages.MemberRoundTrip | crates/arkforge-ipc/src/messages/parts/session.rs:347-370 | An archive member survives its message |
| ManifestMessages.EntryRoundTrip | crates/arkforge-ipc/src/messages/parts/session.rs:385-418 | A partition entry survives its message, an absent size apart from a zero one |
| ManifestMessages.ResponseRoundTrip | crates/arkforge-ipc/src/messages/parts/plan.rs:4-58 | A response survives its message exactly when none of its unclassified names is empty |
| ManifestCache.VersionRoundTrip | crates/arkforge-core/src/identity.rs:30-46 | A printed version parses to itself |
| DigestText.ToHex | crates/arkforge-core/src/digest/sha256.rs:44-51 | The loop prints the 64 lowercase digits of the digest |
| DigestText.ParseHex | crates/arkforge-core/src/digest/sha256.rs:57-71 | The loop accepts and returns what the reference parser does |
| DigestText.OneSpelling | crates/arkforge-core/src/digest/sha256.rs:53-71 | A text parses to a digest if and only if it is the printed one |
| ManifestCache.DecodeManifestCache | cmd/arkforged/src/artifact_ops.rs:204-359 | The field loop and the checks behind it accept and return what the reference decoder does |
| ManifestCache.CacheDecodes | cmd/arkforged/src/artifact_ops.rs:134-181 | For every manifest in range and every digest function: a written cache file decodes to the manifest without its empty names exactly when it is asked for its own object, the names, table and manifest are valid and the digest is unchanged, and to nothing otherwise |
| ManifestCache.CacheRoundTrip | cmd/arkforged/src/artifact_ops.rs:134-181 | When the digests of a manifest and of it without its empty names do not collide, a written cache file decodes to the manifest itself when it is storable and asked for its own object, and to nothing otherwise |
| ManifestCache.Inspector.Inspect | cmd/arkforged/src/artifact_ops.rs:80-108 | For every parser: whether the answer comes from the cache or from the parser cannot be told from the answer, a miss alone has to seal the object, and a parsed manifest is published |
| ManifestCache.Inspector.InspectTwice | cmd/arkforged/src/artifact_ops.rs:80-132 | The second of two inspections is a hit exactly when the manifest is storable, has the object's size and fits the size bound; both give the same manifest |
| ManifestCache.InspectWithPlainTools | cmd/arkforged/src/artifact_ops.rs:80-132 | For every object below 1000 bytes there is an inspector whose second inspection is a hit |
| ManifestCache.Inspector.Disturb | cmd/arkforged/src/artifact_ops.rs:110-132 | A foreign file that does not decode is only a miss |

## Left out

- Errors of the underlying byte source are not modelled in the import pipeline: they only propagate.
- SHA-256 is a function parameter or the sequence of hashed bytes itself; where a statement needs it to be collision-free, it says so.
- The rest of `inspect`: texts of error messages and summaries, the format identifier and the final `validate` of the manifest, which cannot fail on what the loop built.
- `pac.rs` is not modelled; the agreement of cache and parser is stated for every parser whose numbers fit their fields, so its manifests are covered.
- Canonical CBOR, identifier syntax inside the cache, manifest validation and manifest digests are function parameters of `ManifestCache.Tools`; the one law used is that the digest of a manifest differs from the digest of the same manifest without its empty names, for manifests that have such names.
- Sums of machine words are bounded where a stream or a caller can make them overflow (`Pax`, `Cas`, `PartitionTable`, `WritePartition`); counts of bytes already read and clock readings are unbounded.
- Clocks count whole milliseconds: the code measures finer and truncates the remaining time to milliseconds, so a restoration's read-back can be inside its budget when less than a millisecond passed (crates/arkforge-arkdeck-adapter/src/maintenance.rs:469-473).
- Listing order: directory listings are taken in any order, so the sorting of `list_objects` and the order of loaded plans are not modelled.
- Files, directories and permission bits are reduced to the steps the stores rely on (create-new, write, sync, link, rename, remove, directory sync).
- Partition indices are natural numbers in `Mtdparts`; the code casts them to 32 bits, which a parameter file of at most 1 MiB cannot exceed.
- Session.ReturnedImportDelivered: assumes that the service answers an import with success only after it has read the upload to its end, as `Upload.ImportUpload` does.
- The handshake of a session and the contents of requests are not modelled; a content frame may be taken for any request the daemon's decoder would make of it.
- Recovery.RecoveryForgets: a write is taken to fill the whole range of its effect with bytes that depend on the content digest and the offset only; that no target is listed twice is what `validate` of a profile enforces (crates/arkforge-core/src/profile.rs:631-638).
- Maintenance.Verify: texts of error reasons are not modelled, since a loss replaces them all by one fixed reason.
- USB transport, CBW and CSW frames: a WRITE_LBA command counts as begun once its transfer is attempted.
- Command line, rendering, journal, permit ledger, preboot scripts and packaging are not modelled; they would add members without adding depth.
