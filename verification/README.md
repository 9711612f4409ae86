# libappimage, modelled and verified in Dafny

libappimage reads AppImages and integrates them into the desktop. This project models the parts
of it that carry state and proves what they promise. Nothing here executes the library.

| module | what it models |
|---|---|
| `Rfc1321`, `Md5`, `Md5KnownAnswers` | the streaming MD5 context, proved against a one-shot digest written from RFC 1321, and known answers of the standard |
| `Names`, `LinkChains`, `PayloadEntriesCache`, `LinkTheorems` | the in-place resolution of links in an AppImage payload |
| `Files`, `ResourcesExtractor`, `ExtractTheorems`, `ExtractToTheorems` | single extraction, batch extraction and extraction to files |
| `SectionDigest`, `SectionDigestTheorems`, `FedCells`, `SharedChunks` | the digest of a type 2 AppImage that leaves out up to three ELF sections |
| `DeployPaths`, `IntegrationManager`, `IntegrationTheorems`, `IntegrationRuns`, `IntegrationDelivery`, `IntegrationExamples` | registering and unregistering AppImages as changes of a file-system map |
| `ByteSwap`, `ElfFile` | the size of an ELF file in either byte order, on a processor of either byte order |
| `FormatDetection`, `PayloadIteration`, `Streambuf` | the magic-byte checks on one stream, the payload iterator, the chunked reader |
| `Hex`, `Hashlib`, `UrlEncoder`, `StringSanitizer` | the AppImage id, percent-encoding, safe file names |

The model follows the source's form: objects with state are classes whose methods are proved
against functions of their fields, loops keep their order, branches and constants, and pure code
is functions. Exceptions are `Result` and `Option` values. The file system is a map from paths to
contents; each write can fail in its own way (no directory, not opened, cut short, no permissions),
and the results hold for every choice of faults. XdgUtils, the desktop entry editor, the icon library and
`std::filesystem::absolute` are function parameters, so the results hold for whatever they do.

The functions that the contracts are stated in are pinned down in turn: by laws that do not name
their bodies, and by literal inputs with their outcomes, from the test vectors of RFC 1321 to
whole registrations with the paths and bytes of every file.

## What the proofs found

Some properties that one would expect hold only under a condition. Each of these is proved as an
equivalence with that condition or comes with a concrete input.

- `resolveLinks` stops only at a non-link or at its own start. It runs for ever on a link that
  leads into a cycle whose names all sort after it (`LinkTheorems.TerminatesExactly`,
  `WalkIntoLaterCycleDiverges`).
- The section digest is independent of section bytes exactly when the loop, run on positions,
  feeds none from a section (`FedCells.NonInterferenceOfCells`). When no chunk is shared, it
  depends on them if a section begins on a chunk boundary or has an overhang larger than a chunk
  and not a multiple of one (`SectionDigestTheorems.NonInterferenceByLayout`); when exactly one
  pair of sections shares a chunk, it always does (`SharedChunks.AtMostOnePairExactly`). With
  three in one chunk, in the order of the code, it depends on a long key
  (`SharedChunks.LongKeyInterferes`); short sections in another order can hide each other's bytes
  (`ThreeSectionsMayShare`). It does depend on them for AppImages of the repository's own test
  data (`SampleAppImagesInterfere`). The comment in `digest.c:37` speaks of emulated null bytes;
  the buffer is not cleared, so the fed bytes are those that the previous chunk left there
  (`FedChunk`).
- `isIconFile` accepts its directory anywhere in the path, and unregistering does not find what
  was deployed from elsewhere: `IntegrationTheorems.RoundTripExactly` has the exact condition,
  `MisplacedIconStays` a payload.
- A 32-bit ELF file in the byte order that the processor does not have gets a wrong size, because
  its section fields pass through the 64-bit swap (`ElfFile.SizeOf32Exactly`, `ForeignSize32`).
- `hashlib::md5` reads its count before it is set when a chunk is full
  (`Hashlib.FedIsDataExactly`).
- The iterator is said to skip the "." entry. An archive of nothing but such entries is
  visited once, with the path "." (`PayloadIteration.ListFilesExactly`, `LoneDotIsListed`).
- Batch extraction keeps the last of several entries with one path, single extraction the first
  (`ResourcesExtractor.BatchRefinesSingle`, `DuplicatesAreReadDifferently`).
- A stream that cannot be opened raises nothing, nor does one that is cut short: a registration
  can succeed without its icon or with an empty desktop file (`IntegrationTheorems.LossIsSilent`).
  It arrives whole exactly when no fault harms a write (`IntegrationDelivery.DeliveredWholeExactly`).
  That there is a desktop file at all is certain because setting the permissions of a missing one
  fails (`IntegrationManager.IntegrationRegisters`).
- Of two icons that link to one file only one is deployed
  (`ExtractToTheorems.AllDeliveredExactly`).

## Model

| member | source | states |
|---|---|---|
| `Md5.FastF` | src/libappimage_hashlib/md5.c:27 | F without AND-NOT is the F of section 3.4 of RFC 1321 |
| `Md5.FastG` | src/libappimage_hashlib/md5.c:28 | G without AND-NOT is the G of RFC 1321 |
| `Md5.Step` | src/libappimage_hashlib/md5.c:37-40 | one STEP is the operation of RFC 1321: add, rotate by s, add b |
| `Md5.Context.Set` | src/libappimage_hashlib/md5.c:68-72 | SET stores the n-th little-endian word of the block and gives it to the step |
| `Md5.Context.Round1` | src/libappimage_hashlib/md5.c:88-104 | the 16 unrolled steps, which also fill the block, are steps 1 to 16 of the table of RFC 1321, with its word order, shifts and constants |
| `Md5.Context.Round2` | src/libappimage_hashlib/md5.c:106-122 | likewise steps 17 to 32 |
| `Md5.Context.Round3` | src/libappimage_hashlib/md5.c:124-140 | likewise steps 33 to 48 |
| `Md5.Context.Round4` | src/libappimage_hashlib/md5.c:142-158 | likewise steps 49 to 64 |
| `Md5.Context.TransformBlock` | src/libappimage_hashlib/md5.c:81-165 | one pass of the loop is the compression of RFC 1321 of one 64-byte block |
| `Md5.Context.Transform` | src/libappimage_hashlib/md5.c:50-177 | for any positive multiple of 64 bytes the registers end as the fold of the compression over the blocks; the returned pointer is behind the last one |
| `Md5.Context.constructor` | src/libappimage_hashlib/md5.c:189-201 | a new context stands for the empty message |
| `Md5.Context.Initialise` | src/libappimage_hashlib/md5.c:189-201 | resets the context to the empty message, with the initial registers of RFC 1321 |
| `Md5.CounterAdvances` | src/libappimage_hashlib/md5.c:221-226 | detecting the carry by comparing with the old low counter keeps hi * 2^29 + lo equal to the byte count modulo 2^61, for every update below 2^32 bytes |
| `Md5.Context.Count` | src/libappimage_hashlib/md5.c:221-226 | the counters of the context advance by that rule and lo stays below 2^29 |
| `Md5.Context.Update` | src/libappimage_hashlib/md5.c:210-253 | for every state and every piece the invariant is kept and the message grows by exactly the piece: complete blocks are in the registers, the rest is in the buffer |
| `Md5.Context.FillBuffer` | src/libappimage_hashlib/md5.c:232-244 | completing a started block absorbs 64 more bytes and leaves the rest of the piece |
| `Md5.Context.UpdateAligned` | src/libappimage_hashlib/md5.c:246-252 | the whole blocks of the rest are absorbed and its tail is buffered |
| `Md5.PadEndsInLastBlocks` | src/libappimage_hashlib/md5.c:273-295 | what is still to be processed of the padded message is the tail, the mark, zeros and the length: one block or two |
| `Md5.Context.AppendPadding` | src/libappimage_hashlib/md5.c:273-285 | in both cases the registers have absorbed all of the padded message but its last block, and the buffer holds that block up to the length |
| `Md5.LengthBytes` | src/libappimage_hashlib/md5.c:287-295 | lo << 3 and hi, as two little-endian words, are the bit length modulo 2^64 |
| `Md5.Context.StoreLength` | src/libappimage_hashlib/md5.c:287-295 | the last eight bytes of the buffer become these two words |
| `Md5.Context.Finalise` | src/libappimage_hashlib/md5.c:262-315 | the digest is the RFC 1321 digest of everything fed since initialisation |
| `Md5.DigestOfPieces` | src/libappimage_hashlib/md5.c:189-315 | however a message is split into pieces, empty ones included, feeding them in turn gives the RFC 1321 digest of the concatenation |
| `Md5.Calculate` | src/libappimage_hashlib/md5.c:323-336 | the one-call form computes the same digest |
| `Rfc1321.ZeroCountIsLeast` | src/libappimage_hashlib/md5.c:275-285 | the padding of the reference is the least one of section 3.1 of RFC 1321 |
| `Rfc1321.PadIsInjective` | src/libappimage_hashlib/md5.c:273-295 | below 2^61 bytes no two messages have the same padded form |
| `Rfc1321.LittleEndianValue` | src/libappimage_hashlib/md5.c:288-295 | the length field decodes to the length that was stored |
| `Md5KnownAnswers.EmptyIsKnown` | src/libappimage_hashlib/md5.c:323-336 | the digest of the empty message is d41d8cd98f00b204e9800998ecf8427e (appendix A.5 of RFC 1321), with the outcome of each of the 64 steps |
| `Md5KnownAnswers.AbcIsKnown` | src/libappimage_hashlib/md5.c:323-336 | that of "abc" is 900150983cd24fb0d6963f7d28e17f72 |
| `Md5KnownAnswers.KnownAnswers` | src/libappimage_hashlib/md5.c:323-336 | the streaming implementation gives these two answers |
| `Md5KnownAnswers.FChooses` | src/libappimage_hashlib/md5.c:27 | each bit of F is that of y or z, as the bit of x says |
| `Md5KnownAnswers.GChooses` | src/libappimage_hashlib/md5.c:28 | each bit of G is that of x or y, as the bit of z says |
| `Md5KnownAnswers.HIsParity` | src/libappimage_hashlib/md5.c:29 | each bit of H is the parity of the three, so flipping any flips it |
| `Md5KnownAnswers.IMixes` | src/libappimage_hashlib/md5.c:30 | each bit of I is that of y, flipped when x has the bit or z has not |
| `PayloadEntriesCache.Cache.constructor` | src/libappimage/utils/resources_extractor/PayloadEntriesCache.cpp:37-40 | after construction the types are those of the payload and every link maps to its resolved target |
| `PayloadEntriesCache.Cache.ReadAllEntries` | src/libappimage/utils/resources_extractor/PayloadEntriesCache.cpp:62-69 | the two maps hold, for each path, the last entry of that path |
| `PayloadEntriesCache.Cache.FollowLinks` | src/libappimage/utils/resources_extractor/PayloadEntriesCache.cpp:44-56 | one walk, reading links that were rewritten before, finds the end of the original chain, or "" when there is none |
| `PayloadEntriesCache.Cache.ResolveLinks` | src/libappimage/utils/resources_extractor/PayloadEntriesCache.cpp:42-60 | rewriting the map in place in key order ends with the pure resolution of the original map, and terminates |
| `PayloadEntriesCache.TypesAreOfLastEntries` | src/libappimage/utils/resources_extractor/PayloadEntriesCache.cpp:18-24 | the lookup of a type fails exactly for paths without an entry; otherwise it is the type of the last entry of the path |
| `PayloadEntriesCache.LinksArePresent` | src/libappimage/utils/resources_extractor/PayloadEntriesCache.cpp:26-29 | "not a link" is reported exactly for paths none of whose entries is a link, even when the last is of another type |
| `PayloadEntriesCache.LinksAreOfLastLinks` | src/libappimage/utils/resources_extractor/PayloadEntriesCache.cpp:66-67 | the chain of a path starts with the target of its last link entry |
| `LinkChains.EndsOrCycles` | src/libappimage/utils/resources_extractor/PayloadEntriesCache.cpp:47-51 | on a finite map a chain either leaves the map or runs into a cycle, and never both |
| `LinkChains.ResolveLeavesMap` | src/libappimage/utils/resources_extractor/PayloadEntriesCache.cpp:47-58 | a resolved target is never itself a link |
| `LinkTheorems.LoopFoundExactlyOnCycles` | src/libappimage/utils/resources_extractor/PayloadEntriesCache.cpp:26-60 | with non-empty targets "loop found" is reported exactly for the links whose chain runs into a cycle; all others get the first name on their chain that is not a link |
| `LinkTheorems.LoopFoundForEveryLink` | src/libappimage/utils/resources_extractor/PayloadEntriesCache.cpp:26-60 | without that assumption an empty target on the chain is the only other way to be reported as a loop |
| `LinkTheorems.WalkEndsExactly` | src/libappimage/utils/resources_extractor/PayloadEntriesCache.cpp:47-51 | the walk from a key ends if and only if the original chain meets a non-link, the key itself or an earlier key |
| `LinkTheorems.TerminatesExactly` | src/libappimage/utils/resources_extractor/PayloadEntriesCache.cpp:43-51 | every chain meets a name where its walk must stop if and only if every cycle that a link runs into from outside has a link sorting before that link |
| `LinkTheorems.CacheAtLeast` | src/libappimage/utils/resources_extractor/PayloadEntriesCache.cpp:43-58 | when the outer loop comes to a key, the map holds the resolved targets of the smaller keys and the original ones of the rest |
| `LinkTheorems.AllWalksEndExactly` | src/libappimage/utils/resources_extractor/PayloadEntriesCache.cpp:43-51 | on these states of the map the walks from all keys end if and only if cycles sort first in that sense |
| `LinkTheorems.AcyclicTerminates` | src/libappimage/utils/resources_extractor/PayloadEntriesCache.cpp:43-51 | hence on all maps without cycles |
| `LinkTheorems.PureCyclesTerminate` | src/libappimage/utils/resources_extractor/PayloadEntriesCache.cpp:43-51 | and on all maps in which every link lies on a cycle |
| `LinkTheorems.WalkIntoLaterCycleDiverges` | src/libappimage/utils/resources_extractor/PayloadEntriesCache.cpp:43-51 | the condition is needed: with a -> b -> c -> b the walk from a never ends |
| `LinkTheorems.LinkTargetOf` | src/libappimage/utils/resources_extractor/PayloadEntriesCache.cpp:26-35 | the getter on a payload answers "not a link" exactly for paths none of whose entries is a link, and "loop found" exactly for chains into a cycle |
| `Names.LessExactly` | src/libappimage/utils/resources_extractor/PayloadEntriesCache.cpp:43 | the order of the walk is that of std::string: the first difference decides, and a proper front comes first |
| `ResourcesExtractor.Extractor.Extract` | src/libappimage/utils/resources_extractor/ResourcesExtractor.cpp:125-137 | the data of the first entry whose path is the resolved target, or the error of the lookup |
| `ExtractTheorems.ExtractOfMissing` | src/libappimage/utils/resources_extractor/ResourcesExtractor.cpp:125-136 | a path without an entry is an error that names it |
| `ExtractTheorems.ExtractOfPlain` | src/libappimage/utils/resources_extractor/ResourcesExtractor.cpp:125-136 | a path whose last entry is not a link gives the data of its first entry |
| `ExtractTheorems.ExtractOfLink` | src/libappimage/utils/resources_extractor/ResourcesExtractor.cpp:125-136 | a link gives the data of the first entry of the name at the end of its chain, or an error that names the link when there is none |
| `ExtractTheorems.ExtractOfLoop` | src/libappimage/utils/resources_extractor/ResourcesExtractor.cpp:125-136 | a link that runs into a cycle gives "loop found" |
| `ResourcesExtractor.Extractor.ReverseLinks` | src/libappimage/utils/resources_extractor/ResourcesExtractor.cpp:142-147 | each wanted target maps to the request that speaks last for it |
| `ResourcesExtractor.Extractor.ReadRequested` | src/libappimage/utils/resources_extractor/ResourcesExtractor.cpp:149-158 | the result has exactly the answered requests, each with the last data of its target |
| `ResourcesExtractor.Extractor.ExtractAll` | src/libappimage/utils/resources_extractor/ResourcesExtractor.cpp:139-160 | the batch fails if and only if some request has no target, with the error of the first such request, and otherwise is that result |
| `ResourcesExtractor.FirstErrorExactly` | src/libappimage/utils/resources_extractor/ResourcesExtractor.cpp:142-147 | the error of a batch is that of the first request that has no target, and there is one exactly when some request has none |
| `ResourcesExtractor.LastRequestIsLast` | src/libappimage/utils/resources_extractor/ResourcesExtractor.cpp:142-147 | the request kept for a target is the last one in the list that resolves to it |
| `ResourcesExtractor.BatchRefinesSingle` | src/libappimage/utils/resources_extractor/ResourcesExtractor.cpp:125-160 | batch and single extraction agree on every request list if and only if for each path of the payload that is not a link the first and the last entry have the same data |
| `ResourcesExtractor.DuplicatesAreReadDifferently` | src/libappimage/utils/resources_extractor/ResourcesExtractor.cpp:125-160 | a payload with two entries of one path: extract gives the first, the batch the last |
| `ResourcesExtractor.BatchOfUniqueTargets` | src/libappimage/utils/resources_extractor/ResourcesExtractor.cpp:139-160 | with unique targets the answered paths are exactly the last requested ones whose target is present, each with the value of extract |
| `ResourcesExtractor.Extractor.RealTargets` | src/libappimage/utils/resources_extractor/ResourcesExtractor.cpp:85-96 | overwriting for links and inserting if absent for plain entries: a link wins over a plain entry, and of the links the last in key order |
| `ResourcesExtractor.ChosenExists` | src/libappimage/utils/resources_extractor/ResourcesExtractor.cpp:85-96 | if all sources resolve there is a choice of destinations by that rule |
| `ResourcesExtractor.ChosenIsUnique` | src/libappimage/utils/resources_extractor/ResourcesExtractor.cpp:85-96 | and it is the only one |
| `ExtractTheorems.LastLinkCounts` | src/libappimage/utils/resources_extractor/ResourcesExtractor.cpp:85-122 | a file and two links to it are written once, to the destination of the link that sorts last |
| `ExtractTheorems.FirstErrorIsLeast` | src/libappimage/utils/resources_extractor/ResourcesExtractor.cpp:89-96 | of two sources that do not resolve the one that sorts first is reported |
| `ResourcesExtractor.Extractor.WriteEntries` | src/libappimage/utils/resources_extractor/ResourcesExtractor.cpp:98-122 | the planned writes are carried out in turn, each with its own fault; only a directory that cannot be created ends them |
| `ResourcesExtractor.Extractor.ExtractTo` | src/libappimage/utils/resources_extractor/ResourcesExtractor.cpp:85-123 | carries out the writes of the entries that are targets to the chosen destinations; if a source does not resolve it fails with the first such error and writes nothing |
| `ExtractToTheorems.PlanWrites` | src/libappimage/utils/resources_extractor/ResourcesExtractor.cpp:98-122 | a destination ends up with the last data of its target, or as before when the target is absent |
| `ExtractToTheorems.PlanWritesExactly` | src/libappimage/utils/resources_extractor/ResourcesExtractor.cpp:85-122 | the destinations written are exactly those of the sources that win their target and whose target is in the payload |
| `ExtractToTheorems.ArrivesAtDestination` | src/libappimage/utils/resources_extractor/ResourcesExtractor.cpp:85-123 | a requested source arrives at its destination with the bytes of extract(source) |
| `ExtractToTheorems.ExtractToMatchesExtract` | src/libappimage/utils/resources_extractor/ResourcesExtractor.cpp:85-123 | with pairwise distinct targets and destinations and unique targets: all of them do, and no other file changes |
| `ExtractToTheorems.AllDeliveredExactly` | src/libappimage/utils/resources_extractor/ResourcesExtractor.cpp:85-123 | with different destinations and unique targets every source arrives, whatever files there are, if and only if no two sources resolve to one target in the payload |
| `SectionDigest.PassSection` | src/libappimage_shared/digest.c:60-77 | the block that is repeated for each section computes one step of the specification on cursor, carry, bytes left and buffer |
| `SectionDigest.FillChunk` | src/libappimage_shared/digest.c:43-123 | one iteration up to Md5Update |
| `SectionDigest.DigestMd5` | src/libappimage_shared/digest.c:35-132 | the digest is the RFC 1321 digest of the bytes that exactly ceil(size / 4096) iterations feed |
| `SectionDigestTheorems.CursorConservation` | src/libappimage_shared/digest.c:40-128 | when no two sections share a chunk, iteration k begins at file offset 4096 k with the carry left over by the sections before, whatever was skipped |
| `SectionDigestTheorems.FedChunk` | src/libappimage_shared/digest.c:47-123 | each fed byte is the file byte at its own offset, or, where the file ends or a section is skipped, what the previous chunk left in the buffer |
| `SectionDigestTheorems.FedAtPosition` | src/libappimage_shared/digest.c:40-129 | a byte that is not skipped is fed at its own position of the stream |
| `SectionDigestTheorems.NonInterferenceExactly` | src/libappimage_shared/digest.c:40-129 | files that differ only in section bytes are fed alike, for every initial buffer, if and only if every section byte is skipped |
| `SectionDigestTheorems.NonInterferenceByLayout` | src/libappimage_shared/digest.c:40-129 | for sections inside the file that share no chunk this is so if and only if no section begins on a chunk boundary and each overhang is at most 4096 or a multiple of it |
| `SectionDigestTheorems.OutsideBytesAreFed` | src/libappimage_shared/digest.c:40-129 | and then every byte outside the sections is fed at its own position |
| `FedCells.FedShows` | src/libappimage_shared/digest.c:40-129 | where each fed byte comes from, a position of the file or of the initial buffer, depends on layout and size alone |
| `FedCells.NonInterferenceOfCells` | src/libappimage_shared/digest.c:40-129 | for every layout and size files that differ only in section bytes are fed alike if and only if the loop, run on positions, feeds none that is in a section |
| `SharedChunks.OnePairInterferes` | src/libappimage_shared/digest.c:40-129 | of three disjoint sections inside the file exactly one pair of which shares a chunk, the digest depends on one |
| `SharedChunks.AtMostOnePairExactly` | src/libappimage_shared/digest.c:40-129 | when at most one pair of three shares a chunk the digest is independent of the section bytes if and only if none does and all are well placed |
| `SharedChunks.TwoSectionsExactly` | src/libappimage_shared/digest.c:40-129 | in particular for at most two sections |
| `SharedChunks.LongKeyInterferes` | src/libappimage_shared/digest.c:59-117 | when all three begin in one chunk, in the order of the code, and the key is at least two chunks long, the digest depends on the key |
| `SharedChunks.SampleAppImagesInterfere` | src/libappimage_shared/digest.c:9-129 | the section layouts of two AppImages of tests/data, Hello_World with three sections in a chunk and Echo with two: the digest depends on section bytes |
| `SharedChunks.SecondIsRead` | src/libappimage_shared/digest.c:59-97 | of two sections in one chunk the second, if treated second, is read from a cursor behind the first and so is fed |
| `SharedChunks.FirstIsRead` | src/libappimage_shared/digest.c:59-97 | if it is treated first, the read of what precedes it feeds the other one |
| `SharedChunks.SharedChunkInterferes` | src/libappimage_shared/digest.c:80-97 | a concrete pair of well-placed sections in one chunk on which the digest depends |
| `SharedChunks.ThreeSectionsMayShare` | src/libappimage_shared/digest.c:59-117 | three well-placed sections in one chunk, in another order, on whose bytes the digest does not depend: the last read overwrites the leaks |
| `DeployPaths.GenerateDeployPath` | src/libappimage/desktop_integration/integrator/Integrator.cpp:269-288 | the loop that clears the parent path at every "usr/share" computes the parent without its leading "usr/share" below the data home, and a file name with the id |
| `DeployPaths.DeployPathOfShare` | src/libappimage/desktop_integration/integrator/Integrator.cpp:269-288 | an entry below usr/share keeps its directory below the data home, and its name behind "appimagekit_" and the id |
| `DeployPaths.DeployPathOf` | src/libappimage/desktop_integration/integrator/Integrator.cpp:269-288 | for any directory the deploy path ends in "appimagekit_", the id, "_" and the name, and what precedes this is a directory |
| `DeployPaths.SameDeployPath` | src/libappimage/desktop_integration/integrator/Integrator.cpp:269-288 | entries that share a deploy path have the same name and directory |
| `DeployPaths.IconExample` | src/libappimage/desktop_integration/integrator/Integrator.cpp:269-288 | usr/share/icons/hicolor/64x64/apps/<name> goes to icons/hicolor/64x64/apps/appimagekit_<id>_<name> |
| `DeployPaths.MimeExample` | src/libappimage/desktop_integration/integrator/Integrator.cpp:269-288 | usr/share/mime/packages/<name> goes to mime/packages/appimagekit_<id>_<name> |
| `DeployPaths.DesktopFileExample` | src/libappimage/desktop_integration/integrator/Integrator.cpp:134-152 | an application called "My App" has applications/appimagekit_<id>-My_App.desktop |
| `DeployPaths.DeployPathHasId` | src/libappimage/desktop_integration/integrator/Integrator.cpp:269-288 | every deploy path contains the prefixed id |
| `DeployPaths.DeployedUnderExactly` | src/libappimage/desktop_integration/integrator/Integrator.cpp:269-288 | which of applications, icons and mime/packages a deploy path is in, exactly |
| `DeployPaths.DeployedIntoManagedExactly` | src/libappimage/desktop_integration/integrator/Integrator.cpp:269-288 | a deploy path is in one of the directories that unregistering cleans if and only if the parent of the entry, without "usr/share", begins with one |
| `DeployPaths.IconEntryIsManaged` | src/libappimage/desktop_integration/integrator/Integrator.cpp:204-211 | entries below usr/share/icons/ are deployed below icons |
| `DeployPaths.MimeEntryIsManaged` | src/libappimage/desktop_integration/integrator/Integrator.cpp:290-301 | entries below usr/share/mime/packages/ are deployed below mime/packages |
| `DeployPaths.DirIconIsManaged` | src/libappimage/desktop_integration/integrator/Integrator.cpp:228-254 | so is the fallback icon below icons |
| `DeployPaths.DesktopFileIsManaged` | src/libappimage/desktop_integration/integrator/Integrator.cpp:134-152 | the desktop file lies directly in applications whatever the application name is, and its name has the id |
| `Files.FileSystem.Put` | src/libappimage/desktop_integration/integrator/Integrator.cpp:97-117 | one write of a plan with its fault: what is left of it, and whether its writer raises an exception |
| `Files.CarryIsApply` | src/libappimage/utils/resources_extractor/ResourcesExtractor.cpp:98-122 | whatever fails, the files are those of the surviving writes |
| `Files.SurvivorsAreWrites` | src/libappimage/utils/resources_extractor/ResourcesExtractor.cpp:98-122 | each surviving write is one of the plan, with its data or the front of it |
| `Files.CarryConcat` | src/libappimage/desktop_integration/integrator/Integrator.cpp:331-340 | two plans carried out in turn are one plan, up to the first exception |
| `IntegrationManager.IntegrationManager.FindDesktopEntry` | src/libappimage/utils/resources_extractor/ResourcesExtractor.cpp:176-182 | the first entry in payload order that is a main desktop file |
| `IntegrationExamples.DesktopEntryIsFirst` | src/libappimage/utils/resources_extractor/ResourcesExtractor.cpp:176-182 | the desktop entry is that of the first main desktop file |
| `IntegrationExamples.MainDesktopFilesAre` | src/libappimage/utils/resources_extractor/ResourcesExtractor.cpp:35-38 | main desktop files have ".desktop" in their path, and no slash |
| `IntegrationExamples.IconFilesAre` | src/libappimage/utils/resources_extractor/ResourcesExtractor.cpp:31-33 | icon files have "usr/share/icons" somewhere in their path |
| `IntegrationExamples.MimeFilesAre` | src/libappimage/utils/resources_extractor/ResourcesExtractor.cpp:40-47 | mime files are "usr/share/mime/packages/", a name and ".xml" |
| `IntegrationExamples.DeployedEntriesAre` | src/libappimage/utils/resources_extractor/ResourcesExtractor.cpp:61-83 | the deployed entries are the icon files of the payload that have the icon name in their path, and its mime files |
| `IntegrationManager.IntegrationManager.BuildTargets` | src/libappimage/desktop_integration/integrator/Integrator.cpp:204-208 | the loop maps each chosen entry to its deploy path |
| `IntegrationManager.IntegrationManager.ReadDesktopEntry` | src/libappimage/desktop_integration/integrator/Integrator.cpp:53-95 | the parsed desktop entry, unless it is missing, malformed or refuses the integration |
| `IntegrationManager.IntegrationManager.DeployIcons` | src/libappimage/desktop_integration/integrator/Integrator.cpp:174-212 | carries out exactly the planned icon writes: the icons of the name in the desktop entry, or else the fallback icon, whose errors are not reported |
| `IntegrationManager.IntegrationManager.DeployApplicationIcon` | src/libappimage/desktop_integration/integrator/Integrator.cpp:224-260 | writes the image of the fallback icon to its deploy path, or nothing when the icon library rejects it; a failure to save it ends nothing |
| `IntegrationManager.IntegrationManager.DeployDesktopEntry` | src/libappimage/desktop_integration/integrator/Integrator.cpp:97-117 | carries out one write, of the edited desktop entry; fails without a name, without the directory, and when the permissions cannot be set, after the file was written or because it does not exist |
| `IntegrationManager.IntegrationManager.DeployMimeTypePackages` | src/libappimage/desktop_integration/integrator/Integrator.cpp:290-301 | carries out exactly the extraction of the mime packages to their deploy paths |
| `IntegrationManager.IntegrationManager.Integrate` | src/libappimage/desktop_integration/integrator/Integrator.cpp:331-340 | carries out the icon writes, then the desktop file, then the mime packages, up to the first exception; it succeeds if and only if the plan is complete and none was raised |
| `IntegrationManager.IntegrationIsManagedExactly` | src/libappimage/desktop_integration/integrator/Integrator.cpp:97-301 | every write of an integration is at a path with the id, and all are in directories that unregistering cleans if and only if each icon that is written comes from a managed entry |
| `IntegrationManager.IntegrationRegisters` | src/libappimage/desktop_integration/integrator/Integrator.cpp:97-152 | an integration that comes to its end leaves a desktop file that the query finds, whatever writes failed silently |
| `IntegrationManager.PlanLeavesOthers` | src/libappimage/desktop_integration/IntegrationManager.cpp:46-53 | for every choice of faults a plan with the id leaves all other files alone, and unregistering undoes it when the plan stays in the managed directories |
| `IntegrationManager.IntegrationManager.RemoveMatchingFiles` | src/libappimage/desktop_integration/IntegrationManager.cpp:46-53 | removes exactly the files below the directory whose path has the hint |
| `IntegrationManager.IntegrationManager.UnregisterAppImage` | src/libappimage/desktop_integration/IntegrationManager.cpp:126-134 | removes exactly the files with the id below applications, icons and mime/packages |
| `IntegrationManager.IntegrationManager.IsARegisteredAppImage` | src/libappimage/desktop_integration/IntegrationManager.cpp:80-95 | true if and only if a file below applications has the id |
| `IntegrationManager.IntegrationManager.RegisterAppImage` | src/libappimage/desktop_integration/IntegrationManager.cpp:67-78 | success leaves what the plan carried out; failure at any step leaves that without the files that unregistering removes |
| `IntegrationTheorems.UnregisterIsIdentityExactly` | src/libappimage/desktop_integration/IntegrationManager.cpp:126-134 | unregistering changes nothing if and only if no managed file has the id |
| `IntegrationTheorems.UnregisteredIsNotRegistered` | src/libappimage/desktop_integration/IntegrationManager.cpp:80-134 | after unregistering the query answers no |
| `IntegrationTheorems.RegistrationIsTransactional` | src/libappimage/desktop_integration/IntegrationManager.cpp:67-134 | for every choice of failing writes: files without the id are unchanged, success is seen by the query, and with managed icons a failed registration leaves none of its files |
| `IntegrationTheorems.IconFaultsAreIgnored` | src/libappimage/desktop_integration/integrator/Integrator.cpp:224-260 | when nothing but saving the fallback icon fails the registration succeeds |
| `IntegrationTheorems.IconsOfShareAreManaged` | src/libappimage/desktop_integration/integrator/Integrator.cpp:204-211 | icons below usr/share/icons/ meet the condition, whatever directories the payload lists |
| `IntegrationTheorems.RoundTripExactly` | src/libappimage/desktop_integration/IntegrationManager.cpp:67-134 | registering and unregistering is the identity on all files without owned ones, whatever writes fail, if and only if each icon that is written comes from a managed entry |
| `IntegrationTheorems.RegisterThenUnregister` | src/libappimage/desktop_integration/IntegrationManager.cpp:67-134 | the two calls in turn leave the files of that round trip |
| `IntegrationTheorems.RegisterAtomically` | src/libappimage/desktop_integration/IntegrationManager.cpp:67-95 | a registration is seen by the query if and only if it succeeds, and otherwise, with managed icons, changes nothing |
| `IntegrationRuns.Run` | src/libappimage/desktop_integration/IntegrationManager.cpp:67-134 | over every run of registrations and unregistrations, failed or not, files with none of the ids are unchanged |
| `IntegrationRuns.QueryAfterRun` | src/libappimage/desktop_integration/IntegrationManager.cpp:67-134 | over every run, with every choice of faults, the query for an id is true exactly when the last operation with that id is a registration that succeeded, provided that no id is in the paths of another AppImage or of an initial file |
| `IntegrationDelivery.DeliveredWholeExactly` | src/libappimage/desktop_integration/integrator/Integrator.cpp:97-301 | where none of its files is yet and no path is written twice, a registration succeeds with all files and all data if and only if each write got its directory, was opened and not cut short, and the permissions of the desktop file were set |
| `Files.WholeExactly` | src/libappimage/utils/resources_extractor/ResourcesExtractor.cpp:98-122 | the same for any plan of writes |
| `IntegrationDelivery.FaultlessRegistration` | src/libappimage/desktop_integration/IntegrationManager.cpp:67-78 | when no write fails the files are those of the whole plan |
| `IntegrationDelivery.DesktopFileIsDelivered` | src/libappimage/desktop_integration/integrator/Integrator.cpp:97-152 | after a complete integration the desktop file holds the edited entry |
| `IntegrationDelivery.MimePackagesAreDelivered` | src/libappimage/desktop_integration/integrator/Integrator.cpp:290-301 | each mime package is at its deploy path with the bytes of extract |
| `IntegrationDelivery.IconsAreDelivered` | src/libappimage/desktop_integration/integrator/Integrator.cpp:204-211 | so is each icon below usr/share/icons/ of the name in the desktop entry, after all later steps |
| `IntegrationDelivery.FallbackIconIsDelivered` | src/libappimage/desktop_integration/integrator/Integrator.cpp:192-203 | without such icons the image made of .DirIcon is at its deploy path |
| `IntegrationTheorems.MisplacedIconStays` | src/libappimage/utils/resources_extractor/ResourcesExtractor.cpp:31-33 | a payload with a desktop file and opt/usr/share/icons/a.png: its registration succeeds, and after unregistering the icon is still there |
| `IntegrationTheorems.LossIsSilent` | src/libappimage/utils/resources_extractor/ResourcesExtractor.cpp:117-121 | a concrete registration that succeeds without its icon because the file could not be opened, and one that succeeds with an empty desktop file |
| `IntegrationExamples.SamplePlan` | src/libappimage/desktop_integration/integrator/Integrator.cpp:331-340 | registering an AppImage with an icon and a mime package writes the icon, the desktop file and the package, in this order, to these paths with these bytes |
| `IntegrationExamples.SampleRegistered` | src/libappimage/desktop_integration/IntegrationManager.cpp:67-78 | without faults the three files are there; with a directory that cannot be created, or a desktop file that cannot be opened or made executable, the registration fails and none of them is left |
| `IntegrationExamples.SampleFails` | src/libappimage/desktop_integration/integrator/Integrator.cpp:53-213 | which desktop entries make it fail before, and which after the icon is written |
| `IntegrationExamples.PlainPlan` | src/libappimage/desktop_integration/integrator/Integrator.cpp:192-254 | with .DirIcon as the only icon its image goes to icons/hicolor/64x64/apps/appimagekit_<id>_app.png |
| `IntegrationExamples.SampleUnregistered` | src/libappimage/desktop_integration/IntegrationManager.cpp:126-134 | unregistering removes the three files, but neither one next to them without the id nor one with the id elsewhere |
| `IntegrationExamples.SampleQuery` | src/libappimage/desktop_integration/IntegrationManager.cpp:80-95 | the query finds the desktop file and not the icon |
| `ByteSwap.SwapsAreInvolutions` | src/libappimage/utils/light_byteswap.h:3-13 | each macro undoes itself |
| `ByteSwap.SwapExamples` | src/libappimage/utils/light_byteswap.h:3-13 | 0x1234, 0x12345678 and 0x0123456789abcdef swapped |
| `ByteSwap.SwapOfLoad64` | src/libappimage/utils/light_byteswap.h:3-13 | swapping what a processor of one byte order loads gives what the other one loads: the nested macros reverse the bytes |
| `ByteSwap.Load64Number` | src/libappimage/utils/ElfFile.cpp:37-41 | a load in the byte order of the data is the encoded number |
| `ByteSwap.NumberOfReversed` | src/libappimage/utils/light_byteswap.h:3-13 | the two encodings of a number are reversals of each other |
| `ByteSwap.EncodingIsUnique` | src/libappimage/utils/light_byteswap.h:3-13 | different bytes of one width encode different numbers below 256^width |
| `ByteSwap.EncodingExists` | src/libappimage/utils/light_byteswap.h:3-13 | and every such number has an encoding, in either byte order |
| `ByteSwap.WideSwapShifts` | src/libappimage/utils/ElfFile.cpp:73 | a 32-bit value through the 64-bit swap ends up in the upper half |
| `ElfFile.Converted16` | src/libappimage/utils/ElfFile.cpp:25-29 | on either processor, converting a loaded 16-bit field gives the number that the file encodes |
| `ElfFile.Converted32` | src/libappimage/utils/ElfFile.cpp:31-35 | the same for 32 bits |
| `ElfFile.Converted64` | src/libappimage/utils/ElfFile.cpp:37-41 | the same for 64 bits |
| `ElfFile.ConvertedWide` | src/libappimage/utils/ElfFile.cpp:73 | a 32-bit field through the 64-bit conversion is the number in host byte order and 2^32 times the number otherwise |
| `ElfFile.ElfFile.ReadElf32` | src/libappimage/utils/ElfFile.cpp:43-75 | the size by the numbers in the file, with short reads, negative seeks and wrap-around |
| `ElfFile.ElfFile.ReadElf64` | src/libappimage/utils/ElfFile.cpp:77-109 | the same for 64-bit files; the processor does not matter |
| `ElfFile.ElfFile.GetSize` | src/libappimage/utils/ElfFile.cpp:111-143 | -1 for a missing or short file, an unknown byte order or class; otherwise the size by the numbers in the file, whatever was read before |
| `ElfFile.SizeOf64` | src/libappimage/utils/ElfFile.cpp:77-109 | for every layout in range the size is the larger of table end and last section end |
| `ElfFile.SizeIsIndependentOfByteOrder` | src/libappimage/utils/ElfFile.cpp:25-109 | the same layout encoded little- and big-endian has the same size on any processors |
| `ElfFile.Encodable64` | src/libappimage/utils/ElfFile.cpp:77-109 | every layout whose section headers lie behind the ELF header has a file in either byte order |
| `ElfFile.Encodable32` | src/libappimage/utils/ElfFile.cpp:43-75 | and so has every 32-bit layout |
| `ElfFile.Size64Example` | src/libappimage/utils/ElfFile.cpp:77-143 | a file written out byte by byte, with byte 5 as 1 and little-endian fields or as 2 and big-endian ones, has size 150 on every processor |
| `ElfFile.Size32Example` | src/libappimage/utils/ElfFile.cpp:43-143 | likewise for 32 bits on the processor of its byte order |
| `ElfFile.NoSize` | src/libappimage/utils/ElfFile.cpp:121-138 | files that are too short, or whose byte 4 or 5 is neither 1 nor 2, have no size |
| `ElfFile.SizeOf32Exactly` | src/libappimage/utils/ElfFile.cpp:71-74 | a 32-bit size is right if and only if the file is in host byte order or the shifted section end happens to stay below the table end |
| `ElfFile.ForeignSize32` | src/libappimage/utils/ElfFile.cpp:71-74 | below 2 GiB a 32-bit file of the other byte order gets 2^32 times the end of its last section |
| `FormatDetection.PastTheEnd` | src/libappimage/utils/MagicBytesChecker.cpp:65-82 | a check that ran past the end of the file excludes every check that ends later |
| `FormatDetection.MagicBytesChecker.HasSignatureAt` | src/libappimage/utils/MagicBytesChecker.cpp:65-82 | true if and only if the stream had not failed and the signature is there; the stream fails exactly when the file ends inside a matching signature |
| `FormatDetection.MagicBytesChecker.HasIso9660Signature` | src/libappimage/utils/MagicBytesChecker.cpp:15-33 | true if and only if the stream had not failed and one of the three positions matches, although a failure at one position spoils the next |
| `FormatDetection.MagicBytesChecker.HasElfSignature` | src/libappimage/utils/MagicBytesChecker.cpp:35-43 | the check at offset 0, with its effect on the stream |
| `FormatDetection.MagicBytesChecker.HasAppImageType1Signature` | src/libappimage/utils/MagicBytesChecker.cpp:45-53 | the check for type 1, with its effect on the stream |
| `FormatDetection.MagicBytesChecker.HasAppImageType2Signature` | src/libappimage/utils/MagicBytesChecker.cpp:55-63 | the check for type 2, with its effect on the stream |
| `FormatDetection.GetFormat` | src/libappimage/core/AppImage.cpp:51-69 | for every file the checks on one stream give the answer of a predicate on its bytes |
| `FormatDetection.FormatsAre` | src/libappimage/core/AppImage.cpp:51-69 | the answer byte by byte: "AI" and 1 or 2 at offset 8 of an ELF file, or else "CD001" at 32769, 34817 or 36865 |
| `PayloadIteration.TraversalType1.constructor` | src/libappimage/core/impl/TraversalType1.cpp:21-32 | positioned on the first entry that is not ".", or completed |
| `PayloadIteration.TraversalType1.Next` | src/libappimage/core/impl/TraversalType1.cpp:40-52 | the recursive skip moves to the next entry that is not "."; at the end the name of a skipped entry stays behind |
| `PayloadIteration.PayloadIterator.constructor` | src/libappimage/core/PayloadIterator.cpp:42-56 | the paths to be seen are those of the specification |
| `PayloadIteration.PayloadIterator.Next` | src/libappimage/core/PayloadIterator.cpp:91-103 | drops the first of the remaining paths, makes the data readable again and does nothing at the end |
| `PayloadIteration.VisitAll` | src/libappimage/core/PayloadIterator.cpp:91-172 | a loop over files() sees each entry other than "." once, in archive order, without a leading "./" |
| `PayloadIteration.ListFiles` | src/libappimage/libappimage.cpp:66-69 | the list has the non-empty paths of that loop |
| `PayloadIteration.ListFilesExactly` | src/libappimage/libappimage.cpp:66-69 | these are exactly the non-empty names unless the archive holds "." entries and nothing else |
| `PayloadIteration.EntryNames` | src/libappimage/core/impl/TraversalType1.cpp:139-155 | a leading "./" is removed from a name and anything else kept |
| `PayloadIteration.EntryLinks` | src/libappimage/core/impl/TraversalType1.cpp:127-137 | two characters are dropped from a link target, the symbolic link counts before the hard one, and a target makes the entry a link |
| `PayloadIteration.EntryKinds` | src/libappimage/core/impl/TraversalType1.cpp:109-125 | the types of entries without a target |
| `PayloadIteration.VisitExample` | src/libappimage/core/PayloadIterator.cpp:91-172 | a walk over ".", "./usr" and "usr/a" sees "usr" and "usr/a" |
| `PayloadIteration.VisitNothing` | src/libappimage/core/PayloadIterator.cpp:91-172 | a walk over an archive without entries sees one empty path |
| `PayloadIteration.AcceptedExample` | src/libappimage/core/PayloadIterator.cpp:111-129 | which calls of two short sequences are carried out |
| `PayloadIteration.LoneDotIsListed` | src/libappimage/core/impl/TraversalType1.cpp:40-52 | an archive of one "." entry is listed as "." |
| `PayloadIteration.Run` | src/libappimage/core/PayloadIterator.cpp:91-129 | which calls of any sequence of next and read are carried out |
| `PayloadIteration.OneReadPerEntry` | src/libappimage/core/PayloadIterator.cpp:111-129 | over any such sequence each entry is read at most once, and the end once more |
| `PayloadIteration.ReadsAreSeparated` | src/libappimage/core/PayloadIterator.cpp:111-129 | between two accepted reads there is an advance |
| `Streambuf.StreambufType2.Underflow` | src/libappimage/core/impl/StreambufType2.cpp:42-58 | signals the end exactly when the whole entry was delivered; otherwise shows its next byte and advances the count |
| `Streambuf.StreambufType2.Bump` | src/libappimage/core/impl/StreambufType2.cpp:42-58 | delivers the next byte of the entry |
| `Streambuf.ReadDataFile` | src/libappimage/utils/resources_extractor/ResourcesExtractor.cpp:49-51 | for every entry and positive buffer size the whole entry is delivered in order, each byte once |
| `Hashlib.ReadNext` | src/libappimage/utils/hashlib.cpp:27-28 | the loop condition takes the next chunk of what is to be fed, or finds that there is none |
| `Hashlib.Md5Stream` | src/libappimage/utils/hashlib.cpp:19-40 | the digest of what the read loop feeds, where the count is indeterminate until a read comes short |
| `Hashlib.FedIsDataExactly` | src/libappimage/utils/hashlib.cpp:25-29 | that is the whole input, whatever the indeterminate count is, if and only if the input is shorter than one chunk |
| `Hashlib.FedAt` | src/libappimage/utils/hashlib.cpp:25-29 | each full chunk contributes as many of its first bytes as the indeterminate count says |
| `Hashlib.FedTail` | src/libappimage/utils/hashlib.cpp:25-29 | and the short one at the end all of its bytes |
| `Hashlib.ToHex` | src/libappimage/utils/hashlib.cpp:47-54 | two hexadecimal digits for each byte |
| `Hashlib.FromHexOfHexed` | src/libappimage/utils/hashlib.cpp:47-54 | decoding them gives back the bytes |
| `Hashlib.HexedIsLowerHex` | src/libappimage/utils/hashlib.cpp:47-54 | the digits are lowercase |
| `Hashlib.HashPath` | src/libappimage/utils/path_utils.cpp:20-35 | empty for an empty path, otherwise the hex of what is fed for the URI |
| `Hashlib.HashPathIs` | src/libappimage/utils/path_utils.cpp:13-35 | for an absolute path with a URI below 4096 bytes: 32 lowercase digits that decode to the RFC 1321 digest of the bytes that are, one by one, the characters of "file://" and the path |
| `Hashlib.DifferentPathsDiffer` | src/libappimage/utils/path_utils.cpp:13-35 | different paths are hashed as different bytes |
| `Hashlib.UriStays` | src/libappimage/utils/path_utils.cpp:13-18 | "file://" is put in front of a path that does not have it |
| `Hashlib.HexedExample` | src/libappimage/utils/hashlib.cpp:47-54 | 0x0f and 0xa9 print as 0fa9 |
| `UrlEncoder.Encode` | src/libappimage/utils/UrlEncoder.cpp:12-31 | the loop with its case flag computes the encoding |
| `UrlEncoder.DecodeEncode` | src/libappimage/utils/UrlEncoder.cpp:12-31 | percent-decoding gives back every byte string |
| `UrlEncoder.EncodeIsInjective` | src/libappimage/utils/UrlEncoder.cpp:12-31 | so no two byte strings are encoded alike |
| `UrlEncoder.OutputsAreCanonical` | src/libappimage/utils/UrlEncoder.cpp:12-31 | a string is an output if and only if it consists of kept characters and of % with two uppercase digits for other bytes (section 2.4.1 of RFC 2396) |
| `UrlEncoder.KeptAre` | src/libappimage/utils/UrlEncoder.cpp:19 | the characters that stay, one by one |
| `UrlEncoder.EncodedExample` | src/libappimage/utils/UrlEncoder.cpp:12-31 | "/a", a blank and the byte 0xe9 are encoded as /a%20%E9 |
| `StringSanitizer.SanitizeForPath` | src/libappimage/utils/StringSanitizer.cpp:25-50 | the loop computes the sanitised name; a NUL in the input ends it |
| `StringSanitizer.SanitizedIsSafe` | src/libappimage/utils/StringSanitizer.cpp:25-50 | the result has only letters, digits, dot, dash and underscore, hence no separator |
| `StringSanitizer.SanitizedAt` | src/libappimage/utils/StringSanitizer.cpp:37-44 | a digit, a letter, a dot, a dash or an underscore stays, and every other character becomes an underscore |
| `StringSanitizer.NulEnds` | src/libappimage/utils/StringSanitizer.cpp:46-49 | a NUL ends the name |
| `StringSanitizer.SafeStringsStay` | src/libappimage/utils/StringSanitizer.cpp:37-44 | exactly the strings of safe characters stay as they are |
| `StringSanitizer.SanitizeTwice` | src/libappimage/utils/StringSanitizer.cpp:25-50 | sanitising again changes nothing |

## Left out

- Md5.Context.Count: lo and hi are natural numbers with the 32-bit wrap-around written out; everything else in MD5 is 32-bit words.
- PayloadEntriesCache.Cache.ResolveLinks: requires that the walks end, by the condition that LinkTheorems.TerminatesExactly characterises, and that the empty string is not itself the name of a link.
- IntegrationManager.IntegrationManager.RegisterAppImage: requires such a payload too; where a walk does not end the source does not return. Entry paths are required to be relative, as squashfs and ISO 9660 give them.
- SharedChunks.AtMostOnePairExactly: in closed form for at most one pair that shares a chunk; for two or three pairs the exact condition is that of FedCells.NonInterferenceOfCells, which has to be computed.
- IntegrationDelivery.MimePackagesAreDelivered: speaks of writes that do not fail, and requires unambiguous targets and destinations, as ExtractToTheorems does; IconsAreDelivered also requires all chosen icons to lie below usr/share/icons/.
- Hashlib.Md5Stream: the indeterminate count is a parameter of at most 4096; reading past the buffer with a larger one is not modelled. The id used in the integration is the one that HashPathIs proves for URIs below 4096 bytes.
- SectionDigest.DigestMd5: the file exists and its sections have been looked up; lengths are natural numbers, so overflow of the 64-bit C types is not modelled. The buffer, a local array of the loop body in the source, keeps its contents from one iteration to the next, and the results hold for all initial contents.
- ElfFile.ElfFile.ReadElf32: the product of two C ints wraps around in two's complement, which C leaves undefined; the theorems about sizes assume products below 2^31 and sums below 2^63.
- PayloadIteration.TraversalType1.Next: read errors of libarchive, and link targets shorter than the two characters that the source skips.
- Streambuf.StreambufType2.Underflow: read errors of squashfs; StreambufType1 and TraversalType2, which rest on libarchive and squashfuse, are not part of this model.
- UrlEncoder.Encode: isalnum is that of the "C" locale.
- DeployPaths.GenerateDeployPath: requires a relative entry path; it is taken to be without "." and ".." components.
- IntegrationManager.IntegrationManager.UnregisterAppImage: removal does not fail, and directories are not modelled, only files.
- IntegrationManager.IntegrationManager.DeployDesktopEntry: parsing and editing of desktop entries, trimming of the name, and setExecutionPermission, whose errors are caught. Permissions matter only in that setting them can fail.
- extractText has the same lookup as extract and no row of its own.
- shallAppImageBeRegistered, the thumbnailer, the logger, the C wrappers and legacy functions: delegation and input/output.
- IntegrationRuns.QueryAfterRun: requires that no id is in a path of another AppImage, which holds for different MD5 sums unless a path happens to contain one; MD5 collisions are not modelled.
