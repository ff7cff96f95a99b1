# async-chunker: a verified model

async-chunker cuts byte streams into chunks that a content-addressed store can share, and takes ZIP, TAR and gzip
compounds apart into their members. Nearly all of it is byte-at-a-time state machines: walkers that recognise a container
format, an assembler that turns structure and a rolling hash into cuts, writers that print what the walkers read, and a
driver that stacks readers up to eight deep. This project models those machines in Dafny and proves what they promise:

- **Chunk placement.** Whatever the operations, the assembler loses nothing, keeps its size envelope and ends chunks only
  where it may (`Gear`, `Assembler`). A large ISO BMFF box or ZIP member is chunked from its own first byte by its own
  bytes alone, wherever it sits (`LargeUnits`, `Relocation`, `ZipDescriptors`, `ZipChunker`), and begins a chunk exactly
  when no content cut falls into its header or nothing is buffered before it. No byte brings two chunks, and it is known
  exactly which streams end in two (`StreamEnds`). Two payloads resynchronise at the first shared strict hit
  (`GenericCdc`); text chunks are well-formed UTF-8 (`Utf8`, `StructuredText`); audio frames are never split
  (`AudioFrames`, `FramedAudio`). What each cut rule and each mark asks, in numbers and letters, is in `CutRules` and
  `UnitMarks`.
- **Streaming parser equals grammar.** The ISO BMFF, Matroska and framed-audio walkers accept exactly the streams of a
  recursive grammar (`IsobmffWalker`, `IsobmffGrammar`, `Matroska`, `MatroskaGrammar`, `FramedAudioGrammar`). The ZIP
  descriptor scan ends at the least self-consistent descriptor (`ZipWalker`, `ZipScan`), every walk reports whole members
  (`ZipEvents`), and it comes to an end exactly when the directory lists as many members as there were, where it says it
  is (`ZipDirectory`). Headers are read as they are printed field by field, whatever they hold (`IsobmffHeaders`,
  `ZipHeaders`, `TarHeaders`, `TarNumbers`, `FramedAudioHeaders`).
- **Printer and parser.** Canonical ZIP archives, TAR archives with their pax records, media types, and the `ooxml-v1`
  canonical form are read back as written exactly under conditions that can be checked before writing (`ZipWriter`,
  `ZipRoundTrip`, `TarText`, `TarWriter`, `TarWalker`, `TarRoundTrip`, `TarSizes`, `MediaTypes`, `OoxmlCore`, `OoxmlCanon`,
  `OoxmlIdempotence`, `OoxmlClaims`). A media type parses exactly from its proper spellings (`MediaSpellings`), and a
  package is canonicalised exactly when its names and members pass (`OoxmlNames`).
- **The decomposition driver.** The stack of readers that shares one pass over the bytes refines the plain recursive
  reading: what a run tells its sink is the listing of the tree that reading the bytes on their own, and each nested
  member from its own bytes, gives. A run succeeds if and only if nothing in that reading is refused, which is to say the
  bytes are those of some tree with safe paths, at most eight levels and at most a million members. The tree does not
  depend on the windows the bytes came in, and the mutual recursion behind the driver terminates (`DecomposeSink`,
  `DecomposeReading`, `DecomposeRefusals`, `DecomposeTrees`, `Decomposer`, `DecomposeWindows`). What the three readers
  tell is said from the archives themselves (`DecomposeReaders`, `TarAccounts`, `ZipAccounts`, `OfficeLabels`,
  `GzipAccounts`).

A machine that updates fields in place is a class whose methods are proved against functions on values (`Consume`,
`Apply`, `Feed`, `Handle`); the laws are lemmas about those functions. Bytes are integers from 0 to 255 and lengths are
unbounded, with the fields' widths written out where the code depends on them. The gear table is any 256-entry table of
64-bit words. Inflating, gunzipping, checksums, media-type inference and container detection are functions given to the
model, so every result holds for all of them.

## Where the code and its comments differ

The model follows the code.

- The text masks are described as twelve and eight bits wide; they are ten and eleven, so a strict text hit is a
  relaxed one only when one more bit of the hash is clear (`src/constants.rs:17-30`, `Gear.TextStrictIsRelaxedExactly`).
- Finishing may emit two chunks, though its asynchronous caller expects at most one: it does for every accepted stream of at
  least two chunks with no content cut on its last byte (`src/stream/chunker.rs:122-129`, `StreamEnds.IsobmffEndsInTwo`,
  `StreamEnds.ZipEndsInTwo`, and at one stream under every gear table, `StreamEnds.TwoBoxesEndInTwo`).
- A ZIP walker takes the first self-consistent descriptor for a member's end, even inside the member's data; round trip and
  idempotence hold exactly when there is none (`ZipRoundTrip.RoundTripExactly`, `OoxmlIdempotence.IdempotentExactly`).
- `ooxml-v1` compares the decoded length a local header claims only with the walker's plausibility check: a stored member
  must claim what it stores, a deflated one no more than the expansion limit allows. When a descriptor follows the data, a
  deflated member passes whatever plausible length its header claims, and the canonical form keeps that claim
  (`src/chunker/zip/records.rs:57-76`, `OoxmlIdempotence.DishonestOnlyDescribed`, `OoxmlClaims.AnyPlausibleClaim`). The
  canonical form is an archive of its members exactly when no member does so, and is canonicalised to itself exactly when,
  besides, no early descriptor is inside a member of unknown size (`OoxmlIdempotence.CanonicalIsArchiveExactly`,
  `OoxmlIdempotence.IdempotentExactly`).
- TAR padding is that of the header's size even when a pax record overrides it, so the entry after is read back when the two
  sizes agree modulo a block and otherwise lost (`src/decompose/tar.rs:278-308`, `TarRoundTrip.OverriddenSizeAligns`,
  `TarSizes.NextReadBack`). One case is not refused: a shifted block whose bytes add up to a checksum among them.
- A Matroska cluster of unknown size whose header uses up its segment leaves the walker where nothing is accepted any more
  (`src/chunker/matroska/walker.rs:246-262`, `Matroska.ExhaustedByCluster`, `Matroska.StuckRefuses`,
  `MatroskaGrammar.StuckExample`).

## Model

| member | source | states |
|---|---|---|
| `Gear.FoldForgets` | src/chunker/gear.rs:69-71 | after k common bytes the low k bits of the rolling hash no longer depend on where the hash started, for every gear table |
| `Gear.StrictWindow` | src/chunker/gear.rs:69-90 | whether the strict generic mask cuts depends only on the last 18 bytes: any two histories before them give the same verdict |
| `Gear.RelaxedWindow` | src/chunker/gear.rs:69-96 | the relaxed generic verdict depends only on the last 14 bytes |
| `Gear.WordWindow` | src/chunker/gear.rs:42-71 | the whole 64-bit hash depends only on the last 64 bytes |
| `Gear.StrictImpliesRelaxed` | src/chunker/gear.rs:84-96 | under the generic masks every strict hit is a relaxed hit |
| `Gear.TextStrictIsRelaxedExactly` | src/constants.rs:17-30 | under the text masks a relaxed hit is a strict hit with bit 53 of the hash clear as well, and a concrete hash is a strict hit and not a relaxed one |
| `CutRules.GenericRule` | src/chunker/generic.rs:51-66 | generic-cdc-v1 cuts from 16 KiB on where the hash is divisible by 2^18, by 2^14 from 64 KiB on, and always at 256 KiB |
| `CutRules.TextRule` | src/chunker/structured_text/chunker.rs:29-123 | structured text is cut likewise where the hash is below 2^54, below 2^53 from 64 KiB on, and only after a line feed before the target size, after blanks, commas and closing punctuation, too, from it on |
| `Gear.GearHash.Update` | src/chunker/gear.rs:69-71 | one byte shifts the hash left by one and adds that byte's table entry, wrapping at 64 bits |
| `Assembler.BoundaryAssembler.UnitBoundary` | src/chunker/assembler.rs:110-123 | a unit boundary closes a buffer of at least the unit minimum, joins a smaller one to the held chunk when both fit the maximum, and otherwise changes nothing; the hash stays the fold of the buffer |
| `Assembler.BoundaryAssembler.LargeUnitStarts` | src/chunker/assembler.rs:128-147 | what precedes a large unit's header is split off the buffer, joined to the held chunk or closed, and the hash becomes the fold of the header left behind |
| `Assembler.BoundaryAssembler.PushByte` | src/chunker/assembler.rs:151-162 | one byte is appended, rolled into the hash, and the buffer is closed exactly when the cut rule holds of it |
| `Assembler.BoundaryAssembler.Finish` | src/chunker/assembler.rs:166-176 | the held chunk and then the buffered one come out, and nothing stays |
| `Assembler.BoundaryAssembler.CutHere` | src/chunker/assembler.rs:185-210 | the incremental cut test equals the cut rule on the buffered bytes alone: minimum, maximum, gate, seam, mask |
| `CutRules.PerByteRule` | src/chunker/assembler.rs:185-195 | opaque bytes of a container are cut by the rule of generic-cdc-v1 |
| `CutRules.SeamRule` | src/chunker/assembler.rs:29-65 | XML inside a container is cut where the text hash hits: before the target size only after a line feed or a closing angle bracket, from it on after blanks, commas and closing punctuation, too |
| `CutRules.GateRules` | src/chunker/assembler.rs:104-162 | bytes are cut by the gate last set: after it is set to either, the next byte closes the chunk exactly when that gate's rule says so |
| `CutRules.UnitStarts` | src/chunker/assembler.rs:110-123 | after a boundary nothing is left before a unit exactly when nothing was there, or it reached the unit minimum, or it fitted the held chunk; otherwise nothing has changed |
| `CutRules.LargeUnitStarts` | src/chunker/assembler.rs:128-147 | a large unit always has a chunk of its own; what precedes its header joins the held chunk exactly when the two fit 256 KiB |
| `Assembler.BoundaryAssembler.CloseChunk` | src/chunker/assembler.rs:213-221 | closing sends the held chunk out and holds the buffered one back |
| `Assembler.Conservation` | src/chunker/assembler.rs:80-221 | over every sequence of assembler operations, from any state, emitted, held and buffered bytes together are what was stored plus the pushed bytes, in order |
| `Assembler.ChunksCoverStream` | src/chunker/assembler.rs:80-176 | the chunks of a whole stream concatenate to the stream |
| `Assembler.EveryChunkIsLegal` | src/chunker/assembler.rs:110-221 | no chunk of any finished stream is empty or above 256 KiB, whatever the operations |
| `Assembler.ClosedChange` | src/chunker/assembler.rs:110-221 | which operations close or extend a chunk, and what each leaves in the buffer |
| `Assembler.ChunksEndLegally` | src/chunker/assembler.rs:110-221 | every chunk but the last ends at a reported structural position or at a content cut; one below the minimum ends at a structural position |
| `LargeUnits.ClosedGrows` | src/chunker/assembler.rs:110-221 | a closed chunk is never changed by later operations, except that the last may be extended at its end |
| `LargeUnits.UnitChunked` | src/chunker/assembler.rs:110-221 | a unit that is reported large and whose header no cut falls into is chunked from its own first byte on, as its own bytes decide, for all operations before and after |
| `LargeUnits.CutUnitDecides` | src/chunker/assembler.rs:110-221 | a large unit whose header a content cut falls into begins a chunk if and only if nothing was buffered before it, for all operations before and after |
| `StreamEnds.OneChunkPerByte` | src/stream/chunker.rs:104-107 | whatever one byte does - a boundary before it, the byte, a large-unit mark after it - at most one chunk comes out: what a boundary closes leaves too little for a cut at the same byte |
| `StreamEnds.IsobmffByte` | src/stream/chunker.rs:104-107 | so no byte of any ISO BMFF stream brings two chunks |
| `StreamEnds.ZipByte` | src/stream/chunker.rs:104-107 | nor does any byte of a ZIP archive, the byte that faults included |
| `FramedAudio.OneChunkPerByte` | src/stream/chunker.rs:104-107 | nor any byte of framed audio: what a seam cut leaves is too short to be cut again |
| `StreamEnds.FlushesTwo` | src/chunker/assembler.rs:166-176 | finishing emits one chunk for what is held and one for what is buffered: two if and only if there is both |
| `StreamEnds.EndsInTwo` | src/chunker/assembler.rs:166-176 | a stream whose last byte came without a boundary before it leaves two chunks to finishing if and only if it has at least two chunks in all and no content cut falls on its last byte |
| `StreamEnds.IsobmffEndsInTwo` | src/stream/chunker.rs:122-129 | finishing an accepted ISO BMFF stream emits two chunks if and only if the stream has at least two chunks and no content cut falls on its last byte |
| `StreamEnds.ZipEndsInTwo` | src/stream/chunker.rs:122-129 | the same equivalence for every accepted ZIP archive |
| `StreamEnds.TwoBoxesEndInTwo` | src/stream/chunker.rs:122-129 | an ftyp box of 16384 bytes and a free box of eight are an accepted stream that ends in two chunks, for every gear table |
| `IsobmffWalker.Walker.DebitAll` | src/chunker/isobmff/walker.rs:138-147 | the loop charges every bounded open box, and faults exactly when one of them has too little left |
| `IsobmffWalker.Walker.CloseDone` | src/chunker/isobmff/walker.rs:150-159 | the loop pops exactly the exhausted boxes at the top of the stack |
| `IsobmffWalker.Walker.OpenBoxHere` | src/chunker/isobmff/walker.rs:162-228 | a complete header opens its box or faults, by the first-box, size, overrun, nesting and depth rules |
| `IsobmffHeaders.HeaderReads` | src/chunker/isobmff/walker.rs:112-191 | every printed header reads back, whatever follows it: compact sizes from 2 to 2^32-1, extended sizes of 64 bits, the open end, the type, and eight, sixteen, 24 or 32 bytes of header (section 4.2 of ISO/IEC 14496-12) |
| `IsobmffHeaders.ReadsExactly` | src/chunker/isobmff/walker.rs:112-191 | a byte string reads as a header if and only if it begins with a printed one |
| `IsobmffHeaders.FirstBoxes` | src/chunker/isobmff/boxes.rs:12-28 | the types a stream may begin with are ftyp, styp, sidx, moov, moof, free, skip, wide and mdat, and no other |
| `IsobmffHeaders.UserType` | src/chunker/isobmff/boxes.rs:5-10 | the type with sixteen more header bytes is uuid |
| `IsobmffHeaders.ContainerBoxes` | src/chunker/isobmff/boxes.rs:20-33 | the boxes descended into are the fourteen named containers, and no other |
| `UnitMarks.BoxRefused` | src/chunker/isobmff/walker.rs:138-228 | a header is refused by the first rule it breaks: no room for its own byte, a first box of another type, an open end inside another box, a size below the header, a payload above what is left of the parent, a container inside sixteen |
| `UnitMarks.BoxMarked` | src/chunker/isobmff/walker.rs:196-228 | a box is marked as large with its last header byte exactly when it is no container and runs to the end or holds at least 16 KiB; the mark is the length of the printed header |
| `UnitMarks.BoxUnmarked` | src/chunker/isobmff/walker.rs:84-109 | no byte marks anything that does not end a header |
| `IsobmffWalker.Walker.ConsumeByte` | src/chunker/isobmff/walker.rs:66-109 | the buffered walker does what the walk on values does, byte by byte |
| `IsobmffGrammar.WalkerMeetsGrammar` | src/chunker/isobmff/walker.rs:58-228 | from every box start with any stack of open containers, the walker accepts exactly the byte strings the recursive box grammar wants there, and is at a boundary at exactly the box starts |
| `IsobmffGrammar.AcceptsExactlyStreams` | src/chunker/isobmff/walker.rs:66-228 | a byte stream is accepted if and only if it is a sequence of boxes: allowed first box, sizes covering their headers, containers filled exactly, open-ended size only at top level, at most 16 open containers (section 4.2 of ISO/IEC 14496-12) |
| `IsobmffGrammar.BoundariesAreBoxStarts` | src/chunker/isobmff/walker.rs:56-64 | before each byte of an accepted stream the walker is at a box boundary if and only if a box starts at that byte |
| `IsobmffGrammar.OverrunsOnlyInHeaders` | src/chunker/isobmff/walker.rs:84-159 | on every stream, a fault is only ever raised while a header is being read, never inside a payload |
| `IsobmffChunker.IsobmffChunker.PushWindow` | src/chunker/isobmff/chunker.rs:64-80 | pushing a window emits exactly the chunks of its bytes fed one by one, and a fault rejects the stream and drops what is buffered |
| `IsobmffChunker.IsobmffChunker.Finish` | src/chunker/isobmff/chunker.rs:82-91 | finishing flushes the assembler exactly when the walker may end there, and rejects the stream otherwise |
| `IsobmffChunker.FeedIsRun` | src/chunker/isobmff/chunker.rs:64-80 | the chunker over an accepted run is the walker over it, with the walker's reports run through the assembler |
| `IsobmffChunker.WindowsDoNotMatter` | src/chunker/isobmff/chunker.rs:64-80 | however a stream is cut into windows, the chunks, the verdict and the state are the same |
| `Relocation.LargeBoxRelocates` | src/chunker/isobmff/chunker.rs:64-80 | in every accepted stream holding a large box whose header no cut falls into, the box's chunks start at its first byte and are a function of its own bytes, whatever precedes and follows; only the last may be extended |
| `Relocation.EarlyHeaderRelocates` | src/chunker/isobmff/chunker.rs:64-80 | a large box whose header ends below the minimum chunk, counted from what is buffered before it, is always chunked from its first byte by its own bytes |
| `Relocation.SameBoxSameChunks` | README.md:113-116 | two accepted streams that hold the same large box share all its chunks but the last, byte for byte |
| `Relocation.LargeBoxBeginsChunk` | src/chunker/isobmff/walker.rs:220-228 | a large box begins a chunk if and only if no content cut falls inside its header |
| `Relocation.OpenEndedBoxRelocates` | src/chunker/isobmff/walker.rs:184-228 | a box that runs to the end of its stream is chunked from its first byte on by its own bytes alone, however short |
| `Relocation.OpenEndedBoxBeginsChunk` | src/chunker/isobmff/walker.rs:220-228 | an open-ended box begins a chunk if and only if no content cut falls inside its header |
| `ZipRecords.UnLeLe` | src/chunker/office/canonical/writer.rs:29-39 | a little-endian field reads back every number that fits its width |
| `ZipRecords.LocateZip64` | src/chunker/zip/records.rs:267-288 | the moving-index search of an extra area returns its first ZIP64 field, or faults on a field that overruns the area |
| `ZipHeaders.ReadsRecord` | src/chunker/zip/records.rs:96-120 | every local record reads back the flags' bits, the method, the checksum, the sizes and the lengths, whatever else it holds |
| `ZipHeaders.MemberReported` | src/chunker/zip/walker/dispatch.rs:156-209 | a member is reported with its name, its method, bit 0 of the flags for encryption and bit 11 for UTF-8, its checksum, and its sizes unless bit 3 says they follow and the compressed one is zero; it is refused exactly when the sizes cannot be read or are not plausible |
| `ZipHeaders.ReadsEntry` | src/chunker/zip/records.rs:157-196 | every directory record of printed fields reads back its method, sizes, lengths and offset |
| `ZipHeaders.FindsCut` | src/chunker/zip/records.rs:267-288 | an extra field that says more bytes than are left is refused |
| `ZipHeaders.FindsNext` | src/chunker/zip/records.rs:267-288 | an extra field of another kind is stepped over: what is found behind it is found with it in front |
| `ZipHeaders.ResolvesLocal` | src/chunker/zip/records.rs:112-140 | a local header's sizes are those of its record, or of the ZIP64 field exactly for the ones the record marks, in the order uncompressed, compressed |
| `ZipHeaders.ResolvesCentral` | src/chunker/zip/records.rs:171-196 | an entry's sizes and offset are those of its record, or of the ZIP64 field exactly for the ones the record marks, in the order uncompressed, compressed, offset |
| `UnitMarks.Plausible` | src/chunker/zip/records.rs:57-76 | sizes pass exactly when a stored member's agree and a deflated one's output is at most 1032 times its input and 64 bytes more |
| `UnitMarks.MemberMarked` | src/chunker/zip/walker/dispatch.rs:193-209 | a member is marked as large with its header exactly when its compressed size is known there and at least 16 KiB; the mark is the length of the header |
| `ZipWalker.Walker.ConsumeByte` | src/chunker/zip/walker/core.rs:66-183 | the buffered walker does what the walk on values does: state, phase, counters, reported events and large-member mark |
| `ZipWalker.Walker.Scan` | src/chunker/zip/walker/descriptor.rs:16-63 | the in-place shifting loop over the lookahead buffer terminates and equals the recursive judgement of the pending bytes |
| `ZipWalker.Walker.TryCloseDescriptor` | src/chunker/zip/walker/descriptor.rs:67-103 | a descriptor after a member of known size closes it, with or without signature, or faults on a size mismatch |
| `ZipWalker.Walker.ShiftDown` | src/chunker/zip/walker/descriptor.rs:50-53 | the in-place copy moves every pending byte one place down |
| `ZipWalker.Walker.DispatchSignatureHere` | src/chunker/zip/walker/dispatch.rs:16-61 | which signatures may follow in which phase, and what each begins |
| `ZipWalker.Walker.DispatchVariableHere` | src/chunker/zip/walker/dispatch.rs:156-225 | a whole local header enters its member, a whole central entry is checked against the directory start, or either faults |
| `ZipWalker.Walker.ReconcileEndHere` | src/chunker/zip/walker/dispatch.rs:228-261 | the end record is accepted exactly when its counts, size and offset agree with what streamed past, ZIP64 markers deferring to the ZIP64 record |
| `UnitMarks.SignatureRefused` | src/chunker/zip/walker/dispatch.rs:16-61 | after members may come members, entries and end records, after entries no member, after a ZIP64 end record its locator, after that the end record, after that nothing; what else comes is refused as no record, a member too late, or out of place |
| `ZipDirectory.TailMeets` | src/chunker/zip/walker/dispatch.rs:16-261 | from the first directory entry or end record on, the walk may finish if and only if the bytes are that directory: entries each plausible and of a member before it, then end records whose count is the number of entries and of members, with offset and size where the entries stand, in 16, 32 or 64 bits, and a comment |
| `ZipDirectory.DirectoryTells` | src/chunker/zip/walker/dispatch.rs:228-261 | in every archive walked to its end, the members reported, the entries in the directory's bytes and the count its end records declare are equally many, and offset and size are where the directory stands |
| `ZipDirectory.TailSuffices` | src/chunker/zip/walker/dispatch.rs:228-261 | members followed by bytes that do not begin another are walked to the end if and only if those bytes are such a directory |
| `ZipDirectory.BoundaryExactly` | src/chunker/zip/walker/core.rs:57-64 | between records the walker is at a member boundary until it has reported the directory, and never after |
| `ZipDirectory.CountsMustAgree` | src/chunker/zip/walker/dispatch.rs:253-255 | printed members followed by a printed directory of any entries for them are walked to the end if and only if there are as many entries as members |
| `ZipDirectory.ListedTwice` | src/chunker/zip/walker/dispatch.rs:253-255 | a member its directory lists twice, as overlapping entries do, is refused |
| `ZipScan.ScanHolds` | src/chunker/zip/walker/descriptor.rs:16-63 | while no self-consistent descriptor is complete, what has been reported is exactly the bytes before the first position that may still begin one; the lookahead is shorter than one descriptor |
| `ZipScan.ScanEndsAtLeast` | src/chunker/zip/walker/descriptor.rs:16-63 | the scan ends the member at the least position where a descriptor claims exactly the bytes before it; those bytes are the member's data (section 4.3.9 of APPNOTE) |
| `ZipWriter.WriteTail` | src/chunker/office/canonical/writer.rs:169-220 | the tail loop prints every directory entry, then the ZIP64 records exactly when a count, size or offset needs them, then the end record |
| `ZipWriter.CanonicalZipWriter.BeginMember` | src/decompose/writer/zip.rs:68-82 | a member opens at the current offset, and its header is emitted |
| `ZipWriter.CanonicalZipWriter.EndMember` | src/decompose/writer/zip.rs:102-117 | closing a member emits its descriptor and records name, checksum, length and header offset |
| `ZipWriter.CanonicalZipWriter.DirectoryEntry` | src/decompose/writer/zip.rs:54-64 | a directory is an empty member whose name ends in one slash |
| `ZipWriter.CanonicalZipWriter.Finish` | src/decompose/writer/zip.rs:124-127 | everything written over the writer's life is the canonical archive of exactly the members given, in order |
| `ZipHeaders.LocalPrinted` | src/chunker/office/canonical/writer.rs:47-95 | a printed local header is the record of version 20, or 45 with a ZIP64 field exactly when the length does not fit 32 bits, stored, with no time or date, and bit 3 set and all sizes zero when the length is unknown |
| `ZipHeaders.CentralPrinted` | src/chunker/office/canonical/writer.rs:107-166 | a printed directory entry is the same record with its offset, no comment and no attributes, and a ZIP64 field for exactly what does not fit |
| `ZipHeaders.Zip64Exactly` | src/chunker/office/canonical/writer.rs:169-186 | the ZIP64 end records are printed if and only if an end field cannot hold its value or some entry has a ZIP64 field |
| `ZipRoundTrip.ReadsLocal` | src/chunker/zip/records.rs:96-110 | the parser reads back every field the local header printer writes |
| `ZipRoundTrip.ReadsLocalSizes` | src/chunker/zip/records.rs:122-140 | a known length reads back from a local header, through its ZIP64 field when it needs one |
| `ZipRoundTrip.ReadsCentralFacts` | src/chunker/zip/records.rs:157-196 | length and offset read back from a printed directory entry, in every combination of ZIP64 fields |
| `ZipRoundTrip.ReadsZip64End` | src/chunker/zip/records.rs:237-250 | the ZIP64 end record reads back its counts, size and offset |
| `ZipRoundTrip.MemberRun` | src/chunker/zip/walker/core.rs:85-183 | over one printed member the walker reports its header, its bytes and its end, and is back at a member boundary |
| `ZipRoundTrip.TailRun` | src/chunker/zip/walker/dispatch.rs:63-261 | over the printed tail of the members it has seen the walker reports the directory and may finish, ZIP64 records included |
| `ZipRoundTrip.RoundTrip` | src/decompose/writer/zip.rs:43-127 | walking the archive printed for any member list whose fields fit and whose data holds no earlier descriptor never faults, may finish, and reports the same names, bytes, checksums and lengths in order |
| `ZipRoundTrip.RoundTripExactly` | src/chunker/zip/walker/descriptor.rs:12-63 | for every member list whose fields fit, the walk reports what was written if and only if no unknown-size member holds an earlier self-consistent descriptor |
| `ZipRoundTrip.EarlyReported` | src/chunker/zip/walker/descriptor.rs:16-63 | with an early descriptor the walk faults or reports the first such member cut short at its least early descriptor |
| `ZipRoundTrip.EarlyDescriptorExample` | src/chunker/zip/walker/descriptor.rs:16-63 | a one-member archive the round trip fails on, under every name, flag and checksum: its data is a descriptor that claims no bytes |
| `ZipRoundTrip.ClaimedRead` | src/chunker/zip/walker/dispatch.rs:193-209 | whatever follows, a walk that finishes has taken as many bytes for a member as its header claims, and reported it and all before it |
| `ZipDescriptors.DescribedDataRun` | src/chunker/zip/walker/core.rs:150-183 | every byte of a member of known size with a descriptor to come is the member's |
| `ZipDescriptors.DescriptorRun` | src/chunker/zip/walker/descriptor.rs:67-103 | the descriptor after it, signed or not, 32-bit or 64-bit, faults on another compressed size or an impossible one, and otherwise ends the member with what it says |
| `ZipEvents.RunShape` | src/chunker/zip/walker/events.rs:13-47 | every walk, of any bytes, reports whole members one after another, the last perhaps still open; a member whose header and end tell other sizes was ended by a descriptor after its data |
| `ZipEvents.FinishedShape` | src/chunker/zip/walker/events.rs:13-47 | a walk that may finish reported exactly the events of a list of members and then the start of the directory, once |
| `ZipEvents.SourcesTellApart` | src/chunker/zip/walker/events.rs:13-47 | what a walk reports determines the list of members |
| `ZipChunker.ZipChunker.PushWindow` | src/chunker/zip/chunker.rs:68-84 | pushing a window emits exactly the chunks of its bytes fed one by one; a fault rejects the stream |
| `ZipChunker.FeedIsRun` | src/chunker/zip/chunker.rs:68-84 | the chunker over a run is the walker over it, with its reports run through the assembler |
| `ZipChunker.LargeMemberRelocates` | src/chunker/zip/chunker.rs:68-84 | in every accepted archive holding a large member whose header no cut falls into - with or without a descriptor after its data - the member's chunks start at its local header and are a function of its header, data and descriptor, whatever precedes and follows |
| `ZipChunker.LargeMemberBeginsChunk` | src/chunker/zip/walker/dispatch.rs:193-209 | a large member, with or without a descriptor and with a header of any length, begins a chunk if and only if no content cut falls inside that header or nothing is buffered before it |
| `OoxmlCore.CanonCore.LocalHeader` | src/chunker/office/canonical/core.rs:132-187 | a header event faults on encryption, method, package rules and the name, count and size bounds, or queues the boundary, the gate, the rewritten header and the large-unit mark |
| `OoxmlCore.CanonCore.End` | src/chunker/office/canonical/core.rs:202-246 | a member's end closes its decoder, checks inflated length and checksum, and queues the descriptor and the directory entry |
| `OoxmlCore.CanonCore.Close` | src/chunker/office/canonical/core.rs:89-97 | closing refuses a package without its parts or of another kind than expected, and one that never reached its directory |
| `OoxmlNames.NamesChecked` | src/chunker/office/ber.rs:55-95 | after any names, the check has refused exactly a first that is not the content-types part; it knows of a signature exactly when some name is in the signature directory, and of a main part exactly when some name is that part's |
| `OoxmlNames.AcceptedExactly` | src/chunker/office/canonical/core.rs:89-187 | a source the walker reports as these members is canonicalised if and only if content types come first, the main part expected - or some - is there, no name is in the signature directory, members and names are within their bounds, and every member is unencrypted, stored or deflated, and what its header and end say |
| `OoxmlNames.PackageNames` | src/chunker/office/kind.rs:7-36 | the frozen names are [Content_Types].xml, _xmlsignatures/, word/document.xml, xl/workbook.xml and ppt/presentation.xml |
| `OoxmlNames.XmlParts` | src/chunker/office/canonical/core.rs:263-268 | the parts cut at text seams are those whose name, in lower case, ends in .xml or .rels |
| `OoxmlNames.LargeParts` | src/chunker/office/canonical/core.rs:168-183 | a part is marked as large exactly when its size is unknown or claimed at least 4096 bytes |
| `OoxmlCanon.MemberRuns` | src/chunker/office/canonical/core.rs:131-246 | a member passes exactly when its checks pass, and then contributes a stream that depends on its name, flag, checksum, decoded bytes and claimed length alone |
| `OoxmlCanon.StreamOfParts` | src/chunker/office/canonical/core.rs:131-261 | the canonical stream of every accepted source - bytes, boundaries, gates and marks - is a function of its decoded parts |
| `OoxmlCanon.Converge` | README.md:97-98 | accepted sources with the same decoded parts have the same canonical stream, whatever their compression |
| `OoxmlIdempotence.PushedPackage` | src/chunker/office/canonical/writer.rs:47-220 | the bytes of a canonical stream are its parts followed by the directory that describes them at their true offsets |
| `OoxmlIdempotence.CanonicalIsArchiveExactly` | src/chunker/office/canonical/core.rs:131-261 | the canonical bytes are the archive of the decoded members if and only if every length a header claims is the decoded one |
| `OoxmlIdempotence.HonestWhenClaimsAgree` | src/chunker/office/canonical/core.rs:219-227 | an accepted member is of that kind exactly when its header and its descriptor claim the same decoded length |
| `OoxmlIdempotence.DishonestOnlyDescribed` | src/chunker/zip/walker/dispatch.rs:193-209 | a member of an accepted source whose header claims another length than its bytes decode to is deflated, its header's sizes pass the expansion check, and the walk ended it by a descriptor after its data |
| `OoxmlClaims.ClaimRun` | src/chunker/zip/walker/descriptor.rs:67-103 | over a printed member of known size with a descriptor, the walk reports it exactly when the header's sizes and the descriptor's are each plausible, whatever decoded lengths the two tell |
| `OoxmlClaims.AnyPlausibleClaim` | src/chunker/office/canonical/core.rs:132-246 | for every deflated main part and every plausible length its header claims there is an archive that is accepted with the claim kept; when the claim is not the decoded length, canonicalising again does not give the same stream |
| `OoxmlClaims.ClaimExample` | src/chunker/office/canonical/core.rs:132-246 | an empty document, deflated to 03 00, whose header claims one byte is such an archive |
| `OoxmlIdempotence.CanonAccepted` | src/chunker/office/canonical/core.rs:132-246 | a member that was let in is let in again in its canonical form, as the same part |
| `OoxmlIdempotence.DishonestShifts` | src/chunker/office/canonical/core.rs:131-261 | the canonical bytes with a header claim that is not the decoded length are refused, or canonicalised to another stream |
| `OoxmlIdempotence.EarlyCuts` | src/chunker/office/canonical/core.rs:131-261 | and so are those with an earlier self-consistent descriptor in a member of unknown size |
| `OoxmlIdempotence.IdempotentExactly` | src/chunker/office/canonical/core.rs:131-261 | for every accepted source, canonicalising the canonical bytes gives the same stream again if and only if every length a header claims is the decoded one and no unknown-size member holds an earlier self-consistent descriptor |
| `TarText.ReadOctal` | src/decompose/tar.rs:127-143 | the octal scan returns the number before the first terminator, or nothing on another byte or an overflow |
| `TarNumbers.OctalExactly` | src/decompose/tar.rs:127-143 | a field is read if and only if it is spaces, octal digits, and nothing or a space or NUL with anything behind, and the digits' worth fits 64 bits |
| `TarNumbers.OctalRead` | src/decompose/tar.rs:127-143 | and is then read as that worth |
| `TarText.OctalReads` | src/decompose/writer/tar.rs:27-33 | a number below 8 to the field's width reads back from its zero-padded octal digits |
| `TarText.CStringExactly` | src/decompose/tar.rs:145-151 | a name comes back whole from a field if and only if it holds no NUL |
| `TarText.WriteRecord` | src/decompose/writer/tar.rs:59-72 | the loop that fits a record's length to its own digits ends for every key and value, and the record is as long as the number it starts with |
| `TarText.RecordReads` | src/decompose/tar.rs:354-392 | a printed record reads back whole whatever bytes its value holds, equals signs and newlines included, and reading goes on after it |
| `TarText.PaxReads` | src/decompose/writer/tar.rs:58-84 | the records printed for a path and a link read back as exactly those the header fields cannot hold |
| `TarText.ApplyPax` | src/decompose/tar.rs:354-392 | the record loop equals its recursive reading: length, key, value, newline, and a fault on any other shape |
| `TarNumbers.DecimalExactly` | src/decompose/tar.rs:354-392 | the length or size of a pax record is read if and only if it is decimal digits, with a plus sign in front or not, worth no more than 64 bits hold, and then as what they are worth |
| `TarWriter.WriteHeaderBlock` | src/decompose/writer/tar.rs:35-56 | the 512-byte block filled in place holds each field at its offset, zeros elsewhere, and the checksum of the rest |
| `TarWriter.CanonicalTarWriter.EndMember` | src/decompose/writer/tar.rs:165-176 | a member that was given all its bytes is padded to a block |
| `TarWriter.CanonicalTarWriter.Finish` | src/decompose/writer/tar.rs:180-184 | everything written over the writer's life is the canonical archive of exactly the entries given, in order |
| `TarWalker.CheckBlock` | src/decompose/tar.rs:108-125 | the checksum loop accepts a block exactly when its stored checksum is the sum of its bytes with the field read as spaces |
| `TarWalker.Walker.PushByte` | src/decompose/tar.rs:173-256 | the buffered walker does what the walk on values does |
| `TarWalker.Walker.CloseHeaderHere` | src/decompose/tar.rs:258-320 | a whole header block ends the archive, begins an override, opens an entry or faults |
| `TarHeaders.HeaderRun` | src/decompose/tar.rs:258-437 | whatever a header block holds in its fields, the walker takes it as they say: prefix, slash and name with the ustar magic and the name alone without, overrides first; kinds by their letters, an override begun for x, X, g, L and K, a refusal for S, unknown letters and bytes behind other entries |
| `TarHeaders.SplitPath` | src/decompose/tar.rs:401-413 | for every name of 1 to 100 bytes and every prefix of 1 to 155 bytes, both NUL-free, the entry's path is prefix, slash, name with the magic and the name without it, when no override is pending |
| `TarHeaders.OverrideRuns` | src/decompose/tar.rs:322-392 | a pax header applies its records to the next entry, a global one nothing, a GNU one its name or link target; above 16384 bytes, or with a wrong record, it is refused |
| `TarHeaders.OtherKeys` | src/decompose/tar.rs:373-390 | a pax record of any other key than path, linkpath and size changes nothing |
| `TarHeaders.UnfitRefused` | src/decompose/tar.rs:258-276 | a block that is not zero and has another checksum, or no octal size, is refused |
| `TarHeaders.LoneZeroBlock` | src/decompose/tar.rs:258-268 | after one zero block only another ends the archive; any other block is refused |
| `TarHeaders.AfterEnd` | src/decompose/tar.rs:193-256 | after the end any number of zeros may follow, and nothing else |
| `TarRoundTrip.HeaderIsPlain` | src/decompose/writer/tar.rs:35-56 | a printed header is the ustar header of these fields: name and link cut at 100 bytes, no owner, no time, no prefix, and its own checksum |
| `TarRoundTrip.FixedValues` | src/decompose/writer/tar.rs:94-149 | modes are 755 and 644 in octal, the magic is ustar, and a pax header is named @PaxHeader with tag x |
| `TarRoundTrip.ChecksumHolds` | src/decompose/tar.rs:108-125 | every printed header passes the walker's checksum test |
| `TarRoundTrip.HeaderReads` | src/decompose/tar.rs:394-437 | the walker reads path, size, mode, tag and link of a printed header back, overrides taking precedence |
| `TarRoundTrip.PaxRun` | src/decompose/tar.rs:335-392 | a printed pax block within the bound is applied to the next header, and refused beyond it |
| `TarRoundTrip.ItemRun` | src/decompose/tar.rs:193-352 | over one printed entry the walker reports it and its bytes, and is back between entries |
| `TarRoundTrip.RoundTrip` | src/decompose/writer/tar.rs:27-184 | walking the archive printed for any faithful entry list gives exactly those entries with paths, links, sizes and bytes, then the end |
| `TarRoundTrip.RoundTripExactly` | src/decompose/tar.rs:108-437 | for every entry list the fields can hold, the round trip holds if and only if short names hold no NUL, pax blocks are at most 16384 bytes, and special tags are the device and FIFO ones |
| `TarRoundTrip.CutShort` | src/decompose/tar.rs:180-191 | an archive that lacks some of its last zeros gives back its entries, and may finish exactly when none or one whole zero block is there and it holds an entry, or when both are |
| `TarRoundTrip.OverriddenSizeAligns` | src/decompose/tar.rs:278-308 | after a header whose size a pax record overrides, the next header is block-aligned if and only if the two sizes agree modulo a block |
| `TarSizes.SizeReads` | src/decompose/tar.rs:354-392 | a printed size record fits a pax block and gives back every 64-bit size |
| `TarSizes.SizedHeaderRun` | src/decompose/tar.rs:258-320 | over a pax block with a size record and a header of another size the walker opens an entry of the record's size with the padding of the header's |
| `TarSizes.FollowsSized` | src/decompose/tar.rs:278-320 | what follows such an entry, padded to a block as archives are, is refused when the header's size needs more padding, read from its first byte when it needs as much, and otherwise read only after the zeros left over |
| `TarSizes.NextReadBack` | src/decompose/tar.rs:258-320 | the entry after it comes back when the two sizes agree modulo a block; when they do not, the walk stops, unless the block that begins with left-over zeros passes the checksum test, which it cannot with more than 148 of them |
| `TarSizes.OneByteLost` | src/decompose/tar.rs:258-320 | with one byte of data behind a header of size zero, no archive that goes on with another entry is read |
| `TarSizes.OneByteKept` | src/decompose/tar.rs:258-320 | behind a header of size one, all of it is |
| `DecomposeSink.TrackLists` | src/decompose/sink.rs:101-149 | what the bracket rules have accepted so far is the listing of the containers still open, one per depth, as far as they go |
| `DecomposeSink.ListingTracks` | src/decompose/sink.rs:101-149 | the listing of a tree that nests no deeper than the cap is accepted wherever a container may begin, and is remembered whole |
| `DecomposeSink.CompleteExactly` | src/decompose/sink.rs:101-149 | the rules accept a stream to its end as this tree if and only if the stream is its listing and it nests at most eight deep |
| `DecomposeSink.ListingsTellApart` | src/decompose/sink.rs:101-149 | different trees have different listings, so a sink can rebuild the tree from its events |
| `DecomposeReading.CheckPath` | src/decompose/decomposer.rs:632-645 | a path is refused exactly when it is longer than 4096 bytes, starts with a slash or a backslash, or has a dot-dot component |
| `DecomposeTrees.SafePaths` | src/decompose/decomposer.rs:632-645 | a path is let through if and only if it is at most 4096 bytes long, begins with no slash or backslash, and has nowhere two dots that are a whole component; the one other reason is its length |
| `DecomposeReading.ReadingStands` | src/decompose/decomposer.rs:28-60 | reading a container byte by byte leaves the reader where its own account of what it told says it stands |
| `Decomposer.EndsAs` | src/decompose/decomposer.rs:540-570 | a member that ends is listed with the bytes, the length, the media type and the container its reader's bytes give |
| `Decomposer.Decomposer.FeedLevel` | src/decompose/decomposer.rs:417-432 | feeding a level leaves the levels below untouched, the level and all above it where reading their bytes on their own would leave them, the sink with what those readers told, and succeeds exactly when nothing in those bytes is refused and the count stays within the cap |
| `Decomposer.Decomposer.Dispatch` | src/decompose/decomposer.rs:434-479 | handling what a reader said, event by event, shows the sink what was said, and leaves the Office label to the first member name that tells one |
| `Decomposer.Decomposer.HandleEntry` | src/decompose/decomposer.rs:448-454 | an entry is refused for an unsafe path or past the member cap, and otherwise shown and counted |
| `Decomposer.Decomposer.HandleStart` | src/decompose/decomposer.rs:455-472 | a member is refused for an unsafe path or past the member cap, and otherwise opened with nothing decided |
| `Decomposer.Decomposer.RouteBytes` | src/decompose/decomposer.rs:481-503 | member bytes go to the level above a nested member, to the kept first bytes of an undecided one, or to the sink |
| `Decomposer.Decomposer.DecideMember` | src/decompose/decomposer.rs:505-538 | the media type and whether a container is inside are inferred from the name and the bytes so far; a container past the depth cap is refused |
| `Decomposer.Decomposer.CloseMember` | src/decompose/decomposer.rs:540-570 | a member ends only after everything nested in it, and its length is the bytes it was given |
| `Decomposer.Decomposer.FinishLevelsFrom` | src/decompose/decomposer.rs:573-597 | levels are finished and popped from the top down to the given one, whose container is the one its bytes read to; the recursion through member ends terminates |
| `Decomposer.Decomposer.FinishTop` | src/decompose/decomposer.rs:578-594 | after the finish events are handled the level being finished is again the top, so the pop removes it and no other |
| `Decomposer.Decomposer.PopTop` | src/decompose/decomposer.rs:588-594 | a level that ends inside a member is refused; otherwise its container ends with its counts and is the one its bytes read to |
| `Decomposer.Decomposer.Push` | src/decompose/decomposer.rs:344-369 | every pushed window keeps the stack at most eight deep, a level above exactly when a nested member is open and fed exactly that member's bytes, and the trace bracketed; when inference and detection look at no more than 512 bytes, a push succeeds if and only if the bytes pushed so far are let through: the reader refuses nothing, no path faults, no cap is passed, in any member nested in another |
| `Decomposer.Decomposer.Finish` | src/decompose/decomposer.rs:371-388 | what a run that finishes has told the sink is the listing of the tree that reading all pushed bytes on their own, and every nested member from its own bytes, gives; under the same hypothesis a run finishes if and only if all the bytes are decomposable, and calls them no container exactly when none is detected |
| `DecomposeRefusals.PartGrows` | src/decompose/decomposer.rs:344-369 | what has been counted of a container only grows with its bytes, and a refusal of some of them is one of all |
| `DecomposeRefusals.StaysRefused` | src/decompose/decomposer.rs:344-369 | bytes that are refused stay refused, whatever follows them |
| `DecomposeTrees.TreeCount` | src/decompose/decomposer.rs:434-607 | whatever tree a container's bytes are, the count of its entries and members at a depth is there if and only if all its paths are safe and it nests no deeper than the cap, and is then their number |
| `DecomposeTrees.DecomposableExactly` | src/decompose/decomposer.rs:344-645 | all the bytes of a compound are let through if and only if they are the bytes of some tree whose paths are safe, that nests at most eight deep and holds at most a million entries and members |
| `DecomposeWindows.OneDecomposition` | src/probe/detector.rs:10-13 | when inference and detection look at no more than the first 512 bytes, all runs over the same bytes that finish have listed the same tree, whatever windows they were pushed in and wherever each member was decided |
| `DecomposeReaders.TarBrackets` | src/decompose/decomposer.rs:85-136 | the TAR reader brackets its members, each with as many bytes as its entry says |
| `DecomposeReaders.ZipBrackets` | src/decompose/zip.rs:182-214 | the ZIP reader brackets its members, each with as many bytes as were decoded |
| `DecomposeReaders.GzBrackets` | src/decompose/decomposer.rs:173-224 | the gzip reader announces itself once and brackets what is inside |
| `DecomposeReaders.GzFinishes` | src/decompose/decomposer.rs:226-240 | a gzip stream that ends undecided is decided then, and its single member ended |
| `DecomposeReaders.ReadersBracket` | src/decompose/decomposer.rs:243-265 | so the results about the driver hold with the three readers of the source |
| `TarAccounts.ReadingHears` | src/decompose/decomposer.rs:85-125 | the TAR reader refuses bytes exactly where the walk over them faults, and otherwise has told exactly what the walk reported: every entry with its path, kind, target, size, mode and time, numbered in order, members with their bytes |
| `TarAccounts.TarAccount` | src/decompose/decomposer.rs:127-136 | a TAR container is read out if and only if the walk over it may finish |
| `TarAccounts.ArchiveTold` | src/decompose/writer/tar.rs:27-184 | the archive printed for any faithful entry list is read out as exactly those entries |
| `ZipAccounts.ZipAccount` | src/decompose/zip.rs:33-214 | an archive whose walk reports these members is read out if and only if none is encrypted, directories claim no bytes, and everything else is stored or deflated and decodes to as many bytes as its end says; it is read out as them, in order, with the decoded bytes |
| `ZipAccounts.NotRead` | src/decompose/zip.rs:182-214 | bytes the walk faults on, or may not finish after, are not read out |
| `OfficeLabels.ZipLabelled` | src/decompose/decomposer.rs:455-466 | an archive is labelled an Office package if and only if content types come first and some member is a main part, and then by the first such |
| `GzipAccounts.GzipAccount` | src/decompose/decomposer.rs:156-240 | a gzip stream is read out if and only if it unwraps, ends well, and an archive it wraps may finish; as that archive, told as a TAR inside gzip, or as its one member: all the unwrapped bytes |
| `GzipAccounts.PrefixKinds` | src/decompose/media.rs:113-141 | a container is told by its first bytes: gzip and ZIP by their magic, TAR by its magic or a verified checksum, in that order |
| `GenericCdc.GenericCdcChunker.PushWindow` | src/chunker/generic.rs:72-86 | the byte loop emits the chunks of the cut rule and keeps the hash the fold of the buffer |
| `GenericCdc.ChunksCoverPayload` | src/chunker/generic.rs:72-96 | the chunks concatenate to the payload |
| `GenericCdc.Envelope` | src/chunker/generic.rs:51-66 | every chunk but the last is 16 to 256 KiB and ends where the rule cuts |
| `GenericCdc.CutsEarliest` | src/chunker/generic.rs:51-86 | and no shorter prefix of it could have been cut |
| `GenericCdc.Resynchronise` | src/chunker/generic.rs:51-95 | two payloads that share their bytes from some point, and reach there a strict hit with the minimum since their last cuts, are both cut at it, and all later chunks are those of the shared rest |
| `Utf8.Utf8Scanner.Push` | src/chunker/structured_text/utf8.rs:45-57 | one byte moves the scanner as the scan on values does |
| `Utf8.AcceptsExactlyWellFormed` | src/chunker/structured_text/utf8.rs:42-80 | the scanner accepts a byte string and rests if and only if it is the encoding of a sequence of scalar values (section 4 of RFC 3629) |
| `StructuredText.StructuredTextChunker.EmitToLastBoundary` | src/chunker/structured_text/chunker.rs:135-146 | a forced cut inside a scalar carries its bytes over, and re-seeds the hash to the fold of what is carried |
| `StructuredText.StructuredTextChunker.PushWindow` | src/chunker/structured_text/chunker.rs:150-170 | the byte loop equals the feed on values; ill-formed bytes reject the stream |
| `StructuredText.AcceptsExactly` | src/chunker/structured_text/chunker.rs:150-184 | a stream finishes without fault if and only if it is well-formed UTF-8 |
| `StructuredText.ChunksOfText` | src/chunker/structured_text/chunker.rs:109-184 | the chunks of well-formed text concatenate to it, each is well-formed and at most 256 KiB, every one but the last at least 16 KiB, ending at a legal cut or backed off an open scalar by at most three bytes |
| `MediaTypes.Cursor.Quoted` | src/media_type/parse.rs:190-213 | the loop over a quoted string unescapes it up to its closing quote, or fails when none comes |
| `MediaTypes.ParseParameters` | src/media_type/parse.rs:109-138 | the parameter loop reads, lower-cases, refuses repeats and sorts |
| `MediaTypes.SortSorts` | src/media_type/parse.rs:133-137 | parameters come out in order of their names |
| `MediaTypes.Display` | src/media_type/mod.rs:105-127 | the characters written piece by piece are the canonical text, a value quoted and escaped exactly when it is not a token |
| `MediaTypes.TakesQuoted` | src/media_type/parse.rs:190-213 | an escaped value reads back whole, whatever quotes and backslashes it holds |
| `MediaTypes.ParsesToCanonical` | src/media_type/parse.rs:45-138 | whatever parses is canonical: lower-case restricted names, parameters sorted by distinct names |
| `MediaTypes.RoundTrip` | src/media_type/mod.rs:105-127 | every canonical media type is read back from its text, for all values including empty ones |
| `MediaTypes.ParseRenderParse` | src/media_type/parse.rs:45-213 | whatever parses, its text parses to the same media type (section 5.1 of RFC 2045) |
| `MediaTypes.CanonicalExactly` | src/media_type/parse.rs:45-213 | a media type is canonical if and only if some text parses to it |
| `MediaTypes.TextsTellApart` | src/media_type/mod.rs:105-127 | different media types have different texts |
| `MediaSpellings.ParsesExactly` | src/media_type/parse.rs:45-213 | a text parses if and only if it is a proper spelling - blanks, type, slash, subtype, blanks, and at most sixteen parameters of distinct names, each a token, an equals sign and a token or a quoted string - and then to what it means: lower-case names, values without their quotes and backslashes, parameters in order |
| `MediaSpellings.CanonicalText` | src/media_type/mod.rs:105-127 | the text a canonical media type is written as is its spelling with quotes around exactly the values that are no tokens, backslashes before exactly quotes and backslashes, and no blanks |
| `MediaSpellings.LowerLetters` | src/media_type/parse.rs:68-82 | each capital becomes the small letter in its place of the alphabet; nothing else changes |
| `MediaSpellings.NameBytes` | src/media_type/parse.rs:9-16 | names are of letters, digits and ! # $ & - ^ _ . + |
| `MediaSpellings.BlankBytes` | src/media_type/parse.rs:45-49 | blanks are spaces and tabs |
| `MediaSpellings.TokenBytes` | src/media_type/parse.rs:18-38 | tokens are of letters, digits and ! # $ % & ' * + - . ^ _ ` ~ and the vertical bar |
| `AudioFrames.MpegFrameBounds` | src/chunker/framed_audio/mp3.rs:37-78 | every MPEG audio frame length the tables give is 24 to 2881 bytes, so the header is always part of the frame (section 2.4.2.3 of ISO/IEC 11172-3) |
| `AudioFrames.AdtsFrameBounds` | src/chunker/framed_audio/adts.rs:7-21 | every ADTS frame length accepted is 7 to 8191 bytes |
| `AudioFrames.ReadId3BodyLen` | src/chunker/framed_audio/id3.rs:7-20 | the syncsafe loop gives the tag's length with its footer, or refuses a byte with its top bit set |
| `FramedAudio.Walker.ConsumeByte` | src/chunker/framed_audio/walker.rs:101-206 | the buffered walker does what the walk on values does |
| `FramedAudio.FrameRuns` | src/chunker/framed_audio/walker.rs:86-206 | from a boundary the walker takes exactly a frame's bytes, and inside the frame it is at no seam and in no opaque region |
| `FramedAudio.FramedAudioChunker.PushWindow` | src/chunker/framed_audio/chunker.rs:119-135 | the byte loop equals the feed on values: the seam cut before a byte, the opaque cut after it |
| `FramedAudio.Envelope` | src/chunker/framed_audio/chunker.rs:18-116 | no chunk is above 256 KiB and none but the last below 16 KiB: the forced-seam limit always leaves room for a frame |
| `FramedAudio.CutsOnlyAtSeams` | src/chunker/framed_audio/chunker.rs:77-116 | cuts fall only at seams or inside opaque bytes |
| `FramedAudio.FramesStayWhole` | src/chunker/framed_audio/chunker.rs:77-135 | a frame of an accepted stream is never split: no cut falls strictly inside it |
| `FramedAudioHeaders.MpegReads` | src/chunker/framed_audio/mp3.rs:37-78 | whatever an MPEG header holds in its fields, the frame is as long as its samples take at its bitrate and sampling rate, in slots of one byte or four in layer I, or refused for reserved fields or a free format (section 2.4 of ISO/IEC 11172-3) |
| `FramedAudioHeaders.AdtsReads` | src/chunker/framed_audio/adts.rs:7-21 | an ADTS frame is as long as its thirteen bits of length say, refused below its own header or for the forbidden frequency |
| `FramedAudioHeaders.BlockReads` | src/chunker/framed_audio/flac.rs:16-29 | a FLAC block header gives its flag and its 24 bits of length; the first block must be of kind zero and none of kind 127 |
| `FramedAudioGrammar.TagReads` | src/chunker/framed_audio/id3.rs:7-20 | an ID3v2 tag is ten bytes, four times seven bits of size and a footer of ten more long |
| `FramedAudioGrammar.WalkerMeetsGrammar` | src/chunker/framed_audio/walker.rs:101-284 | from every state the walker accepts exactly the byte strings the grammar of tags, frames, trailer and FLAC blocks wants there |
| `FramedAudioGrammar.AcceptsExactly` | src/chunker/framed_audio/walker.rs:101-284 | a stream is chunked to its end without a fault if and only if it is tags and frames of one family with at least one frame, up to the end or a closing 128-byte trailer, or FLAC metadata blocks up to the last and then any bytes |
| `FramedAudioGrammar.SeamsAreUnitStarts` | src/chunker/framed_audio/walker.rs:83-98 | as far as a stream is accepted, the walker is at a seam at exactly the starts of its units - tags, frames, metadata blocks - and at the end of the last |
| `FramedAudioGrammar.BoundaryFaults` | src/chunker/framed_audio/walker.rs:211-267 | at a boundary exactly the bytes that can begin a unit are let in; others are no audio before the first frame, and a lost sync after it |
| `CutRules.FrameRule` | src/chunker/framed_audio/chunker.rs:77-93 | between frames a cut falls from 16 KiB on where the top seven bits of the hash are zero, the top five from 64 KiB on, and always from 253952 bytes on |
| `CutRules.OpaqueRule` | src/chunker/framed_audio/chunker.rs:95-109 | inside tags, metadata and FLAC audio the rule is that of generic-cdc-v1 |
| `Matroska.ReadSize` | src/chunker/matroska/varint.rs:31-39 | the accumulating loop gives a size varint's value and whether it is all ones |
| `Matroska.SizeRoundTrip` | src/chunker/matroska/varint.rs:17-39 | every value below 128 to the n reads back from its n-byte encoding, of every length, and all ones alone reads as unknown (section 4 of RFC 8794) |
| `UnitMarks.Lengths` | src/chunker/matroska/varint.rs:5-22 | IDs are one to four bytes long and sizes one to eight, by the first set bit of their first byte; other first bytes are refused |
| `UnitMarks.SegmentChildren` | src/chunker/matroska/elements.rs:18-44 | the IDs that close an open cluster are exactly the eight listed |
| `UnitMarks.ClusterChildren` | src/chunker/matroska/elements.rs:30-49 | the IDs a cluster of unknown size may hold are exactly the nine listed |
| `Matroska.Walker.ConsumeByte` | src/chunker/matroska/walker.rs:90-148 | the buffered walker does what the walk on values does |
| `Matroska.Walker.DebitOne` | src/chunker/matroska/walker.rs:151-162 | the loop charges every bounded container, and fails exactly when one has nothing left |
| `Matroska.Walker.CloseAll` | src/chunker/matroska/walker.rs:165-175 | the loop pops the exhausted containers, and an unknown-size cluster on an exhausted segment with it |
| `Matroska.Reachable` | src/chunker/matroska/walker.rs:108-298 | every walker a stream can reach holds nothing, a segment, or a segment and a cluster, with a payload never longer than its segment has left |
| `UnitMarks.ElementBoundary` | src/chunker/matroska/walker.rs:78-88 | between elements the walker is at a unit boundary everywhere but inside a cluster of unknown size |
| `UnitMarks.ElementUnmarked` | src/chunker/matroska/walker.rs:108-148 | no byte marks anything that does not end a header |
| `UnitMarks.ElementRefused` | src/chunker/matroska/walker.rs:196-289 | an element is refused by the first rule it breaks: larger than what is left, no EBML header first, another top-level element than a segment or a void, an unexpected child of an open cluster, an unknown size on anything but a segment or a cluster |
| `UnitMarks.ElementMarked` | src/chunker/matroska/walker.rs:246-289 | an element is marked as large with its header exactly when it is a segment's child and a cluster of unknown size or at least 16 KiB long; the mark is the length of the header |
| `Matroska.PayloadNeverFaults` | src/chunker/matroska/walker.rs:108-162 | inside a payload nothing can go wrong: an overrun is only raised while a header is read |
| `Matroska.StuckExactly` | src/chunker/matroska/walker.rs:246-262 | a byte leaves nothing of the segment behind an open cluster if and only if it ends the size varint of a cluster header, the size reads as unknown, and the segment has exactly one byte left |
| `Matroska.ExhaustedByCluster` | src/chunker/matroska/walker.rs:246-262 | between elements of any stream a container is exhausted if and only if the stream ends with the header of an unknown-size cluster exactly as long as what its segment has left |
| `Matroska.StuckRefuses` | src/chunker/matroska/walker.rs:98-162 | a walker that stands there accepts nothing any more, not even the end of the stream |
| `MatroskaGrammar.StuckExample` | src/chunker/matroska/walker.rs:246-262 | the stream 1A 45 DF A3 80 18 53 80 67 85 1F 43 B6 75 FF gets there, and is not accepted |
| `MatroskaGrammar.HeaderRun` | src/chunker/matroska/walker.rs:108-148 | an element header is collected to its last byte and its element opened, or the walk faults as some container has too little left |
| `MatroskaGrammar.WalkerMeetsGrammar` | src/chunker/matroska/walker.rs:90-298 | from every element start with any stack of open containers the walker accepts exactly the byte strings the element grammar wants there |
| `MatroskaGrammar.AcceptsExactlyStreams` | src/chunker/matroska/walker.rs:90-298 | a byte stream is accepted if and only if it is an EBML header and top-level elements by the grammar: known sizes filled exactly, unknown size only for a segment or a cluster (sections 4 and 6.2 of RFC 8794) |

## Left out

- Asynchronous adapters, replay and examples (`src/stream`, `src/replay.rs`, `examples`): the synchronous engines carry the laws.
- Inflate, gunzip, CRC-32 and BLAKE3 internals: they are functions given to the model; a CRC or inflate state is modelled as the bytes absorbed so far.
- The gzip reader's own header and trailer parsing (`src/decompose/gzip.rs`): the driver sees it as a given function from bytes to decoded bytes.
- The gear table's derivation from its seed: every table is allowed.
- Tables of media types, profiles and probes (`src/registry`, `src/probe`, `src/profile.rs`, the name tables of `src/decompose/media.rs`): finite facts; inference by name and bytes is a given function.
- The PDF chunker, whose keyword scan has no clean specification, and the MPEG-TS chunker, an easier form of the framed-audio one.
- The Matroska chunker and `ooxml-ber-v1`: the same composition of walker and assembler as for ISO BMFF and ZIP.
- Error offsets, fault texts and package observers: faults are values without their positions.
- The byte that faults: events a walker had already reported for that byte are not part of the model, and a rejected walker has no value.
- The `ooxml-v1` chunker's step queue: the composition of walker, core and assembler is the function `OoxmlCanon.Canonicalise`; the chunks of its operations are covered by the laws of `Assembler`.
- Capacity hints and reuse of buffers.
- Pax records other than `path`, `linkpath` and `size`: the walker only steps over them.
- DecomposeWindows.OneDecomposition: that inference and detection look at no more than 512 bytes is a hypothesis about the given functions, as the source's probe table promises of its own.
- Decomposer.Decomposer.Push: that a push succeeds exactly when the bytes are let through is stated under the same hypothesis; without it a refusal depends on where the windows end. Which reason a refusal gives is stated for each call (the reader's own, the path's, the depth, the cap, a member left open), not over a whole run.
- Decomposer.Decomposer.Finish: likewise.
- TarSizes.NextReadBack: says nothing of a shifted block that passes the checksum test, after which the walk may go anywhere.
- OoxmlClaims.AnyPlausibleClaim: its archives' directory entries are the canonical writer's, stored and with the compressed length; the walk compares no entry with a member.
- OoxmlIdempotence.IdempotentExactly: stated for canonical streams of at most 2^64-1 bytes, the width of the offsets it prints, and for checksums of 32 bits.
- ZipRoundTrip.RoundTripExactly: stated for members whose names, checksums and lengths fit their fields and archives of at most 2^64-1 bytes; the writer panics or truncates beyond them.
- TarRoundTrip.RoundTripExactly: stated for sizes below 8^11, the width of the octal field.
