# SolArch protected archives: a verified model

This project models the parts of SolArch whose correctness is not visible in any one
function body, and proves their promises with Dafny:

* **The `.slr` archive core** (`crates/solarch-core`). A builder discovers source files,
  cuts them into 1 MiB chunks numbered across files, seals manifest, index and chunks, and
  writes prelude, header, manifest, IDX1, DAT1 and SIG1. A lazy reader serves byte ranges
  back. Proved: build then read is the identity, preparation is accepted by verification,
  no archive that opens can fail a read for bookkeeping reasons, the codecs are
  bijections, the one-pass hasher is slicing, the ordered path index is the pairwise rule.
* **The viewer's licence protocol** (`apps/viewer/src-tauri`). Payment intent, activation,
  refresh, clock rollback guard, session and renderer state over memory and durable
  stores. Every store write may fail and the process may die after any of them; opens run
  in several locked sections that interleave with everything else.
* **The upload side of the web application** (`apps/web`, `apps/api`). ZIP writer and
  reader, CRC-32, base58, the upload pump and the JSON depth check.

Verify it with `dafny verify dfyconfig.toml`.

## How it is laid out

| file | content |
|---|---|
| `Outcomes`, `Results`, `Bytes`, `Sequences`, `Streams`, `Iteration` | outcomes and errors, little-endian numbers, facts on sequences, files as cursors, repeated steps |
| `Paths`, `Manifest`, `Discover` | path index, manifest validation, source discovery |
| `ProductionCrypto`, `Container`, `Platform` | section codecs, container format, what is taken from elsewhere |
| `FileTypes`, `Layouts` | what decides the type of a path, and every binary format by byte offset |
| `Chunks`, `Builder`, `Preparation`, `Verification`, `Archive`, `Reader`, `RoundTrip`, `Instance` | the archive core, from the reference view of chunking to the end-to-end theorems and a request that meets their premises |
| `Viewer`, `License`, `Rollback`, `Payment`, `PaymentRuns`, `PaymentService` | licences, the clock guard, the payment protocol as functions, what its runs leave behind, and the class that runs it |
| `Renderer`, `Session`, `SessionRuns`, `ArchiveService` | renderer registry, the session machine with its interleavings, what its runs guarantee, and the class that runs it |
| `Crc32`, `CheckValues`, `ZipNames`, `Zip`, `Base58`, `UploadQueue`, `UploadOutcomes`, `JsonDepth` | the web side |

Where the program updates state in place the model does too: path index, discovery walk,
streams and hashers, the reader, the pending build, the payment service, the rollback
manager, registry, archive service and upload queue are classes whose methods are proved
equal to a function of the old state; the safety theorems are about those functions and
all their runs. Ciphers, SHA-256, Ed25519, JSON and Unicode tables are parameters with the
laws their users rely on (decryption inverts encryption and adds 16 bytes, decoding
inverts encoding, text comes back but for one leading byte-order mark, folding fixes `/`
and never produces it otherwise).

## What turned out not to hold

* `cleanup_completed_intent_after_unlock` drops a confirmed intent without checking that a
  refresh token is stored (`apps/viewer/src-tauri/src/payment_service.rs:559-579`).
  `CleanupNeedsTheToken` gives the exact condition, `TokenCanBeMissing` the attempts that
  lead there and `PaidIntentIsLost` a concrete run up to the unlock.
* `activate` does not compare the session's archive with the archive of the intent
  (`apps/viewer/src-tauri/src/payment_service.rs:325-333`) and leaves that to the backend.
  `ActivationInAnotherSession` says when the purchase survives a session of another
  archive, `PurchaseSpentElsewhere` gives one in which it does not.
* A malformed public key is noticed after the pending file was written
  (`crates/solarch-core/src/archive.rs:225-226`), which is left behind and refuses the next
  attempt. `Prepare` says exactly when, `PrepareAgain` what follows.
* The 16-bit count of the ZIP end record truncates at 65,536 files
  (`apps/web/src/lib/zip.ts:117-118`); `ZipListsItsFiles` says what is listed then.
* The reader of the ZIP directory drops a byte-order mark in front of a name
  (`apps/web/src/mocks/zip-entries.ts:9`), so two different unique names can be listed as
  one. `WriteThenList` gives the exact condition, `MarkedNameIsLost` the input.
* An operation on a protected file enforces the deadline in one locked section and works in
  a later one (`apps/viewer/src-tauri/src/archive_service.rs:280-298`). An installation that
  finishes in between opens a session past its deadline to that one operation:
  `NoAccessAfterDeadline` gives the exact condition, `LateInstallSlipsThrough` a run.
* The pump's branch for a queued item without files
  (`apps/web/src/lib/use-archive-upload.ts:103-107`) can never be taken (`AdvanceKeeps`).

One promise of the upload queue rests on a library. If `refresh` rejected
(`apps/web/src/lib/use-archive-upload.ts:149-165`), the pump would end with items still
queued; `WaitsWithoutPump` says exactly which, for how long and what takes them up again.
`invalidateQueries` swallows failed refetches unless it is asked to throw, and it is not
asked, so this says what the loop depends on and not what users meet.

## Model

| member | source | states |
|---|---|---|
| RoundTrips.BuildThenRead | crates/solarch-core/src/archive.rs:395-475 | Build then read is the identity: on a built archive every in-bounds range of every file is readable, and a byte string is allowed as its content if and only if it is that slice of the source file, across any chunk boundaries |
| RoundTrips.ReadBuiltRange | crates/solarch-core/src/archive.rs:342-475 | Opening a signed archive and reading a range of at most 4 MiB returns exactly that slice of the source file |
| RoundTrips.SignedBuildOpens | crates/solarch-core/src/archive.rs:342-389 | The pending bytes followed by a signature that holds open under the signing key, fingerprint and content key, with the manifest and the records that were built |
| RoundTrips.PreparedVerifies | crates/solarch-core/src/archive.rs:613-674 | `verify_pending` accepts what `prepare` wrote, from the same sources |
| RoundTrips.BuiltProtects | crates/solarch-core/src/archive.rs:676-731 | What the builder numbers and seals satisfies every check the reader makes on index, manifest and data prefix |
| RoundTrips.ChunkDecrypts | crates/solarch-core/src/archive.rs:733-780 | Reading the record of chunk `id` and decrypting what it points at gives the bytes that were cut from the sources |
| RoundTrips.OnlyOutcome | crates/solarch-core/src/archive.rs:395-475 | On a built archive the contract of the range reader leaves one outcome, the slice |
| Instances.LawfulPlatform | crates/solarch-core/src/production_crypto.rs:101-234 | The laws assumed of ciphers, digests, signatures, JSON and Unicode tables can hold together |
| Instances.BuildableRequestExists | crates/solarch-core/src/archive.rs:140-237 | All premises of the end-to-end theorems hold together for a concrete request |
| Preparation.Prepare | crates/solarch-core/src/archive.rs:140-237 | Succeeds exactly on buildable requests for a free output and pending path with a well-formed public key: canonical header within its cap, discoverable sources, well-formed key id, manifest within its section; says what the folder holds afterwards in every case, the pending file that a malformed key leaves behind included |
| Preparation.PrepareBytes | crates/solarch-core/src/archive.rs:140-237 | Of all the limits on the way from the request to the pending bytes only header, inventory, key id and manifest size can refuse; the bytes written are the concatenation of the five sections |
| Preparation.SealManifest | crates/solarch-core/src/archive.rs:160-177 | Describing, validating and sealing the manifest fails only when its JSON does not fit the encrypted-manifest cap |
| Preparation.WritePending | crates/solarch-core/src/archive.rs:178-237 | Writing and hashing the pending file never fails on a buildable request; the digest covers exactly the pending bytes |
| Preparation.BuildableLengths | crates/solarch-core/src/archive.rs:161-177 | Every buildable request has section lengths within all five caps |
| Preparation.PendingCompletes | crates/solarch-core/src/archive.rs:205-216 | Appending the 64 signature bytes to the pending bytes is the container encoding of the five final sections |
| Preparation.SignedBuildIsAccepted | crates/solarch-core/src/archive.rs:244-295 | A signature that holds for the digest makes the finished bytes parse and verify, so nothing between signing and publishing can refuse them |
| Preparation.PrepareAgain | crates/solarch-core/src/archive.rs:140-237 | After a refusal for a malformed public key the same request with a good key never succeeds: the pending file of the first attempt is in its way exactly when the request was buildable |
| Preparation.PendingBuild.AcceptSignature | crates/solarch-core/src/archive.rs:244-295 | Publishes the pending bytes followed by the signature if and only if the file is still the prepared one, the output path is free, and the result has the signed digest and verifies; otherwise publishes nothing and removes the pending file unless another object took its place |
| Preparation.PendingBuild.CheckAndSign | crates/solarch-core/src/archive.rs:244-278 | The checks in the order of the source, the signature appended in place |
| Preparation.UntouchedIsPublishable | crates/solarch-core/src/archive.rs:244-295 | On the bytes that were prepared the signature alone decides whether they may be published |
| Builder.BuildManifestAndRecords | crates/solarch-core/src/archive.rs:676-731 | On a discovered inventory fails only for a malformed archive id; otherwise chunk ids run through all files without a gap and the records are those of the chunk list |
| Builder.NumberChunks | crates/solarch-core/src/archive.rs:690-707 | The numbering loop yields the next consecutive ids and the records of exactly the chunks of this file |
| Builder.BuiltManifestIsValid | crates/solarch-core/src/archive.rs:676-731 | What the builder describes always passes manifest validation |
| Builder.StreamEncryptedChunks | crates/solarch-core/src/archive.rs:733-780 | Writes the sealed chunks of all files in order and refuses exactly when a record or a file hash does not match what is read |
| Builder.StreamSource | crates/solarch-core/src/archive.rs:733-780 | One file is read chunk by chunk; the loop consumes exactly its records |
| Builder.SealedAt | crates/solarch-core/src/archive.rs:733-780 | The record of a chunk points at its ciphertext inside the data section |
| Chunks.ChunkIsSlice | crates/solarch-core/src/archive.rs:690-707 | Chunk `k` of a file is the slice of one mebibyte at `k` mebibytes, the last one what is left |
| Chunks.SplitFlatten | crates/solarch-core/src/archive.rs:733-780 | The chunks of a file, put together, are the file |
| Chunks.ChunksOfFile | crates/solarch-core/src/archive.rs:676-731 | In the list of all chunks those of file `i` follow the chunks of the files before it |
| Chunks.RecordsAreValid | crates/solarch-core/src/archive.rs:690-707 | The recorded offsets and lengths are contiguous and well-sized for any list of chunks |
| Chunks.ChunkBudget | crates/solarch-core/src/archive.rs:161-177 | An inventory within the discovery limits needs at most one chunk per file and one per whole mebibyte, never more than 10,512, so the limit of 16,384 cannot be met |
| Chunks.SectionBudget | crates/solarch-core/src/archive.rs:161-177 | Nor can the caps of the index and data sections |
| Verification.HashFinalizedOnce | crates/solarch-core/src/archive.rs:565-611 | The single pass over 64 KiB buffers agrees with slicing: for every size the covered digest is over all but the last 64 bytes, the fingerprint spells the hash of all bytes, the block is the last 104 bytes |
| Verification.TakeBuffer | crates/solarch-core/src/archive.rs:582-601 | One buffer, wherever it falls, extends the covered prefix and fills the part of the signature block it contains |
| Verification.DigestPrefix | crates/solarch-core/src/archive.rs:1011-1019 | The buffered prefix digest is the digest of the prefix slice |
| Verification.OpenLayout | crates/solarch-core/src/archive.rs:965-992 | Opens exactly the files whose completion parses as a container, finalized or pending, and returns its ranges and size |
| Verification.VerifyFinalizedOpen | crates/solarch-core/src/archive.rs:538-563 | Accepts exactly the files of the expected size signed by the expected key |
| Verification.VerifyFinalized | crates/solarch-core/src/archive.rs:298-307 | Accepts exactly the files that parse and are signed by the expected key; the fingerprint it reports spells the hash of the file, two lower-case hexadecimal digits a byte, the higher one first |
| Manifests.HexReadsBack | crates/solarch-core/src/production_crypto.rs:563-571 | Every byte of a digest reads back from its two digits: 16 times the value of the first plus the value of the second |
| Manifests.OneSpelling | crates/solarch-core/src/production_crypto.rs:563-571 | Every byte string has exactly one spelling, the one the program writes |
| Manifests.HexInjective | crates/solarch-core/src/production_crypto.rs:563-571 | Different byte strings have different spellings |
| Platforms.DigestSpells | crates/solarch-core/src/archive.rs:820-849 | A recorded file hash or fingerprint agrees with the content exactly if it spells the hash of the content |
| Archives.VerifyPending | crates/solarch-core/src/archive.rs:613-637 | Succeeds exactly when some manifest and records make header, key id, index, every file and the sources agree; reports digest, file count and final size |
| Archives.VerifyProtectedContents | crates/solarch-core/src/archive.rs:639-674 | The same for the protected sections alone |
| Archives.ValidateDataAndManifest | crates/solarch-core/src/archive.rs:792-854 | Accepts exactly the data sections that hold every file the manifest describes, by size and hash, and nothing else |
| Archives.CheckFile | crates/solarch-core/src/archive.rs:820-849 | Consumes the ciphertexts of one file in order and succeeds exactly when its whole content authenticates with the recorded hash |
| Archives.ValidateSourceInventory | crates/solarch-core/src/archive.rs:885-900 | Succeeds exactly when discovery of the sources yields the files of the manifest, path by path, with equal size, type and hash |
| Readers.OpenReader | crates/solarch-core/src/archive.rs:342-389 | Opens exactly the archives whose signature, fingerprint, index, manifest and layout are consistent, and holds what they protect; the fingerprint it asks for spells the hash of the file |
| Readers.ProtectsIsValid | crates/solarch-core/src/archive.rs:364-376 | Whatever the open checks accept satisfies the invariant under which no read can meet a chunk-metadata, bounds or final-length error |
| Readers.ValidateManifestRecordLengths | crates/solarch-core/src/archive.rs:856-883 | Accepts exactly the manifests whose files the records cut up without a gap |
| Readers.ProtectedArchiveReader.ReadFileRange | crates/solarch-core/src/archive.rs:395-475 | Reader totality: over-long, unknown and out-of-bounds requests fail as such; otherwise an unauthentic chunk is all that can fail and the result is the content of the range |
| Readers.ProtectedArchiveReader.ReadPart | crates/solarch-core/src/archive.rs:421-466 | The part of a chunk that lies in the requested range |
| Readers.ProtectedArchiveReader.ReadParts | crates/solarch-core/src/archive.rs:418-475 | The range loop succeeds exactly when every touched chunk authenticates, and appends exactly the requested bytes |
| Readers.ProtectedArchiveReader.ReadAll | crates/solarch-core/src/archive.rs:498-508 | The whole-file loop terminates having concatenated the whole file |
| Readers.ProtectedArchiveReader.ReadCompleteFileBounded | crates/solarch-core/src/archive.rs:481-510 | Beyond the request itself only an unauthentic chunk or a wrong hash of the complete content can fail |
| Readers.OpenManifest | crates/solarch-core/src/manifest.rs:115-124 | Opens exactly the sections that hold the canonical JSON of a valid manifest |
| Platforms.ChunkOutcome | crates/solarch-core/src/production_crypto.rs:191-211 | Once the sizes fit, the tag is the only thing that can fail and the plaintext has the recorded length |
| Platforms.ChunkPayload | crates/solarch-core/src/production_crypto.rs:171-211 | Decrypting an encrypted chunk under the same id and length gives it back |
| Container.SectionRanges | crates/solarch-core/src/format.rs:246-308 | The loop over the section table computes the recursive reading of it, error for error |
| Container.PreludeAccepted | crates/solarch-core/src/format.rs:246-308 | The prelude parser accepts exactly the encodings of valid section lengths that add up to the file size, and returns the tiling they stand for |
| Container.SectionsAreTiled | crates/solarch-core/src/format.rs:246-308 | Accepted sections tile [96, total) without a gap or an overlap, and the table is the encoding of their lengths |
| Container.TiledIsAccepted | crates/solarch-core/src/format.rs:246-308 | Conversely every encoding of valid lengths is accepted |
| Container.CapsFitContainer | crates/solarch-core/src/format.rs:310-335 | Even at every section cap the container stays below 1 GiB |
| Container.EncodePrelude | crates/solarch-core/src/format.rs:310-335 | Encodes exactly the valid section lengths, as the prelude the parser reads; the final self-check refuses the rest |
| Container.DeclaredSizeIsTheFileSize | crates/solarch-core/src/format.rs:337-344 | The size read from the last table entry alone is the size of every file the prelude is accepted for |
| Container.SerializeStructure | crates/solarch-core/src/format.rs:354-387 | Succeeds exactly on a valid header and sections within their limits, and writes their encoding |
| Container.ParseAfterSerialize | crates/solarch-core/src/format.rs:231-236 | Parsing the encoding of a valid header and sections gives them back |
| Container.SerializeAfterParse | crates/solarch-core/src/format.rs:354-387 | Every accepted file is the encoding of its own header and sections |
| Container.InspectStructure | crates/solarch-core/src/format.rs:199-221 | Inspection by prelude and header alone agrees with the full parser on every file: same error, or same header, size and section sizes |
| Container.OnlyThePreludeMatters | crates/solarch-core/src/format.rs:199-221 | The section table is read from the first 96 bytes and the size alone |
| Container.CutAndPaste | crates/solarch-core/src/format.rs:231-236 | Cutting a tiled file gives back the section lengths, and pasting the cuts gives the file |
| ProductionCrypto.ValidateIndexRecords | crates/solarch-core/src/production_crypto.rs:369-396 | Accepts exactly the contiguous, well-sized record lists, and with a data length only those that fill it |
| ProductionCrypto.EncodeIdx1 | crates/solarch-core/src/production_crypto.rs:268-288 | Encodes exactly the valid record lists |
| ProductionCrypto.DecodeIdx1 | crates/solarch-core/src/production_crypto.rs:290-321 | Accepts exactly the byte strings that encode some valid record list, and inverts the encoding |
| ProductionCrypto.Idx1Injective | crates/solarch-core/src/production_crypto.rs:268-321 | Two valid record lists never share an encoding |
| ProductionCrypto.RecordRoundTrip | crates/solarch-core/src/production_crypto.rs:268-321 | A record within its field widths survives encoding and decoding |
| ProductionCrypto.ValidateDat1Layout | crates/solarch-core/src/production_crypto.rs:337-353 | Accepts exactly the prefix that counts the records, in front of data of the length they add up to |
| ProductionCrypto.PrefixRoundTrip | crates/solarch-core/src/production_crypto.rs:415-443 | Parsing the encoding of a valid signature prefix gives it back |
| ProductionCrypto.PrefixBytesRoundTrip | crates/solarch-core/src/production_crypto.rs:415-443 | Every accepted signature prefix is the encoding of what it parses to |
| ProductionCrypto.BlockRoundTrip | crates/solarch-core/src/production_crypto.rs:452-470 | Parsing the encoding of a signature block gives it back |
| ProductionCrypto.BlockBytesRoundTrip | crates/solarch-core/src/production_crypto.rs:452-470 | Every accepted signature block is the encoding of what it parses to |
| Layouts.Idx1ByOffset | crates/solarch-core/src/production_crypto.rs:268-288 | Where the fields of an index lie: magic at 0, count at 4, and for record `k` its offset at 8 + 16k, its ciphertext length at 16 + 16k, its plaintext length at 20 + 16k |
| Layouts.Dat1ByOffset | crates/solarch-core/src/archive.rs:191-194 | The data prefix: magic at 0, count at 4 |
| Layouts.SignatureByOffset | crates/solarch-core/src/production_crypto.rs:415-457 | The signature block: magic, version and algorithm 1, the key id padded with zeros up to byte 40, the signature behind it |
| Layouts.PreludeByOffset | crates/solarch-core/src/format.rs:310-335 | The prelude: magic, version, four zero bytes, and for section `k` its offset, which is where the sections before it end, and its length |
| Manifests.Validate | crates/solarch-core/src/manifest.rs:55-113 | Accepts exactly the valid manifests: ids in order, paths increasing and pairwise free of collisions, sizes within limits, chunk numbers consecutive across files and exhausting the count |
| Manifests.ValidateFiles | crates/solarch-core/src/manifest.rs:62-108 | The loop over the files keeps index, running size and next chunk number equal to what the files before it stand for |
| Manifests.CheckChunks | crates/solarch-core/src/manifest.rs:102-107 | Accepts exactly the next consecutive chunk numbers below the count |
| Manifests.FileIdInjective | crates/solarch-core/src/manifest.rs:69-69 | Two ordinals never share a file id |
| Discovery.Discover | crates/solarch-core/src/source.rs:50-101 | Succeeds exactly when every entry is acceptable, the entry budget suffices and the leaves are within limits and pairwise free of collisions; returns them sorted |
| Discovery.Walk.DiscoverDirectory | crates/solarch-core/src/source.rs:214-286 | The recursive walk with shared budgets succeeds exactly when all entries are acceptable and the budgets cover them, and appends the leaves in listing order |
| Discovery.CollideAndSort | crates/solarch-core/src/source.rs:85-101 | The collision pass followed by the sort accepts by the pairwise rule and returns the ordered list of the same files |
| Discovery.DiscoveryIsDeterministic | crates/solarch-core/src/source.rs:85-101 | Two listings with the same leaves are accepted alike and yield the same ordered list |
| Discovery.ListingOrderIrrelevant | crates/solarch-core/src/source.rs:214-286 | Listing the directories of a tree in another order, at every level, changes neither the entry count nor the verdicts nor the collection of leaves |
| Paths.PathSet.InsertFile | crates/solarch-core/src/paths.rs:113-153 | The ordered index accepts a path exactly when no stored path is fold-equal to it, a folded ancestor of it or a folded descendant of it; a refusal changes nothing |
| Paths.PathSet.Insert | crates/solarch-core/src/paths.rs:107-111 | For directories only a fold-equal path is refused |
| Paths.PathSet.InsertInner | crates/solarch-core/src/paths.rs:117-153 | Both entry points: the index answers as the pairwise rule does and keeps its folded order |
| Paths.SuccessorDecides | crates/solarch-core/src/paths.rs:138-147 | Looking at the one successor of `path/` in the order finds a stored descendant if there is any |
| Paths.AncestorIsAPrefix | crates/solarch-core/src/paths.rs:130-137 | A stored path is a folded ancestor exactly when it folds to a prefix of the path before some `/` |
| Paths.PrefixMeansDescendant | crates/solarch-core/src/paths.rs:155-165 | The character comparison of `folded_component_prefix` is the proper-prefix relation on folded components |
| Paths.InsertAllFiles | crates/solarch-core/src/source.rs:85-89 | Inserting a list succeeds exactly when it is pairwise free of conflicts, so acceptance does not depend on its order |
| Paths.NewNormalizedPath | crates/solarch-core/src/paths.rs:19-45 | Accepts exactly the bounded paths whose normal form is safe, is the identity on normal forms and reports only `UnsafePath` |
| FileTypes.MimeTypeExactly | crates/solarch-core/src/paths.rs:179-198 | The type of a path is that of the text after the last dot of its last component, in lower case; a name that begins with its only dot has none |
| FileTypes.ExtensionExactly | crates/solarch-core/src/paths.rs:185-188 | A name has an extension exactly if it is a non-empty stem, a dot and the extension, which has no dot |
| FileTypes.MimeIgnoresCase | crates/solarch-core/src/paths.rs:189-189 | Paths that differ only in the case of ASCII letters have the same type |
| Licenses.ValidateAndUnwrap | crates/solarch-core/src/license.rs:250-336 | Succeeds exactly on authentic grants for this archive and this device that answer the outstanding request, if there is one, and are within their 259,200 seconds; yields the unwrapped key |
| Licenses.RefreshDropsOnlyTheTime | crates/solarch-core/src/license.rs:233-248 | A cached grant can be used for a refresh exactly when there is some time at which it opens the archive offline |
| Licenses.FreshIsCachedAndAnswers | crates/solarch-core/src/license.rs:204-218 | A fresh response is held to everything a cached grant is, and to the outstanding nonce |
| Rollback.NoUnlockAfterDeadline | apps/viewer/src-tauri/src/lib.rs:172-204 | After a sample at or past deadline + 300 s has been accepted, no later offline restore of that grant succeeds, over any run of restarts, failed reads and clock writes that fail before or after taking effect, without an online reset |
| Rollback.UnlocksExactly | apps/viewer/src-tauri/src/lib.rs:172-204 | An offline restore unlocks if and only if a licence is stored, the clock is accepted, device key and session work, and the stored grant is authentic, for this archive, fingerprint and device, and the sample lies in [issued, issued + 259,200) |
| Rollback.AcceptsExactly | crates/solarch-core/src/license.rs:432-466 | A sample is accepted if and only if it is at most 300 s behind the high water, the monotonic clock did not go back, and it is at most 300 s behind where that clock puts it |
| Rollback.AcceptsLocally | apps/viewer/src-tauri/src/rollback.rs:32-65 | The same for the manager: the first sample of a process is held to the stored high water, later ones to the guard, and the write must be reported |
| Rollback.NeverFallsBack | apps/viewer/src-tauri/src/rollback.rs:32-65 | After an accepted sample no sample more than 300 s earlier is accepted, over any run of restarts and failing stores |
| Rollback.ResetStartsOver | apps/viewer/src-tauri/src/rollback.rs:21-30 | After an online response only its own clock reading counts, in the process and after a restart, however far ahead the high water was |
| Rollback.RestoreWindowIsExact | apps/viewer/src-tauri/src/lib.rs:172-204 | After a restart the stored grant can still be unlocked at some clock reading if and only if it opens the archive at all and the stored high water is below deadline + 300 s |
| Rollback.ReachedForGood | apps/viewer/src-tauri/src/rollback.rs:32-65 | The high water of guard and store never falls below an instant both have reached |
| Rollback.RollbackManager.ObserveLocalSample | apps/viewer/src-tauri/src/rollback.rs:32-58 | The imperative guard and store update equals the step of the clock machine, including a write that reports a failure after the guard advanced, with or without having taken effect |
| Rollback.RollbackManager.ResetAfterOnlineRefresh | apps/viewer/src-tauri/src/rollback.rs:21-30 | The imperative reset equals the step of the clock machine, with the same three ways to write |
| Rollback.DecodeEncoded | apps/viewer/src-tauri/src/rollback.rs:38-65 | Every stored high water reads back, negative ones included |
| Payments.ActivationIsCrashSafe | apps/viewer/src-tauri/src/payment_service.rs:316-398 | After every store write inside an activation and its clean-up, whatever fails, the disk holds the confirmed intent with its secret or the licence of the session's archive with its refresh token; a failed activation can be repeated |
| Payments.StoringIsSafe | apps/viewer/src-tauri/src/payment_service.rs:374-398 | The same for the storing half, with the exact licence and token that a success leaves behind |
| Payments.CleanupIsSafe | apps/viewer/src-tauri/src/payment_service.rs:544-557 | Once licence and token are on disk, removing the completed intent loses neither |
| Payments.OwnArchiveKeepsPurchase | apps/viewer/src-tauri/src/payment_service.rs:316-398 | In a session of the intent's own archive every disk state of an activation holds the confirmed intent with its secret or the licence and token of that very archive |
| Payments.ActivationInAnotherSession | apps/viewer/src-tauri/src/payment_service.rs:325-333 | In any other session a successful activation keeps the purchase exactly when its clean-up could not touch the secret or the archive of the intent was activated before |
| Payments.PurchaseSpentElsewhere | apps/viewer/src-tauri/src/payment_service.rs:325-333 | An activation in a session of another archive that drops the intent |
| Payments.CleanupNeedsTheToken | apps/viewer/src-tauri/src/payment_service.rs:559-579 | The clean-up after an unlock never looks at the refresh token; whatever fails in it and wherever the process dies, it leaves the purchase intact if and only if that token is stored or the deletion of the secret never took effect |
| Payments.TokenCanBeMissing | apps/viewer/src-tauri/src/payment_service.rs:376-396 | Two attempts with nonces, grants and clock readings of their own, the first failing at the clock and the second at its token: the payment stays resumable, and opening the archive again loses it exactly when the stored licence unlocks |
| Payments.PaidIntentIsLost | apps/viewer/src-tauri/src/lib.rs:206-213 | A concrete run of that kind on a fresh installation, the unlock by the clock state it leaves included |
| Payments.MemoryFollowsDisk | apps/viewer/src-tauri/src/payment_service.rs:146-313 | Over every run of operations, archive switches in their midst, failing stores and crashes at any write, the intent in memory is the record saved for its archive |
| Payments.PrepareViewHasSecret | apps/viewer/src-tauri/src/payment_service.rs:203-257 | A view from `prepare_payment` is returned only while a well-formed secret is stored |
| Payments.CurrentViewHasSecret | apps/viewer/src-tauri/src/payment_service.rs:153-169 | The same for `current_payment`, which then changes nothing |
| Payments.VerifyViewHasSecret | apps/viewer/src-tauri/src/payment_service.rs:259-313 | The same for `verify_payment`, whose record is then saved |
| Payments.PreparedResumes | apps/viewer/src-tauri/src/payment_service.rs:171-201 | A prepared payment survives a restart: checking the same metadata brings the same intent back |
| PaymentRuns.CreatesExactly | apps/viewer/src-tauri/src/payment_service.rs:203-257 | Without an intent in memory a payment is created if and only if the answer matches the checked metadata and this device and both parts are stored; view, memory, record and secret are then exactly that answer, with status created |
| PaymentRuns.CheckTakesTheRecord | apps/viewer/src-tauri/src/payment_service.rs:171-201 | After a check the metadata is that of this archive, and the intent in memory is its record exactly if there is one with its secret, which then matches metadata and device |
| PaymentRuns.VerifiesExactly | apps/viewer/src-tauri/src/payment_service.rs:259-313 | A verification succeeds if and only if an intent is in memory with its secret stored, the backend answers with a status and the record can be saved |
| PaymentRuns.VerifyRecordsTheReply | apps/viewer/src-tauri/src/payment_service.rs:302-306 | View, memory and record are then the intent with the status of the answer, and nothing else on disk changes |
| PaymentRuns.FailedVerifyChangesNoStatus | apps/viewer/src-tauri/src/payment_service.rs:259-313 | A failed verification changes the status of no record; at most the record of the intent is gone |
| PaymentRuns.ConfirmedWasAnswered | apps/viewer/src-tauri/src/payment_service.rs:302-306 | Over every run of operations and crashes from a disk without confirmed records, a record is confirmed only if some verification of this very intent was answered so |
| PaymentRuns.ActivatedWasPaid | apps/viewer/src-tauri/src/payment_service.rs:316-333 | Hence an activation succeeds only for an intent that a verification of the run was told is confirmed |
| PaymentRuns.StepStaysAllowed | apps/viewer/src-tauri/src/payment_service.rs:146-579 | At every write of every operation: only a verification that was told so confirms a record, and only an activation or refresh stores a licence, one that fits its request |
| PaymentRuns.TakesFittingGrants | apps/viewer/src-tauri/src/payment_service.rs:340-372 | The response to an activation is taken if and only if it is authentic, for the archive of the session and this device, answers the nonce, and the clock reading lies in its window |
| PaymentRuns.ActivatesExactly | apps/viewer/src-tauri/src/payment_service.rs:316-398 | An activation succeeds if and only if the payment is confirmed, its secret stored, the response fits, and token, licence, clock and session take it |
| PaymentRuns.RefreshesExactly | apps/viewer/src-tauri/src/payment_service.rs:401-488 | A refresh succeeds if and only if the stored licence fits this archive and device at its instant of issue, its token is stored, the response fits the request and has the same licence id, and licence, clock and session take it |
| PaymentRuns.RefreshReplacesTheLicence | apps/viewer/src-tauri/src/payment_service.rs:401-488 | It then replaces the stored licence and changes nothing else |
| PaymentRuns.StoredLicencesFit | apps/viewer/src-tauri/src/payment_service.rs:316-488 | Over every run, every stored licence was there at the start or fits the request of some activation or refresh of the run |
| PaymentServices.PaymentService.PrepareIntent | apps/viewer/src-tauri/src/payment_service.rs:203-257 | The imperative method, store write by store write, is the protocol step whose properties are proved above |
| PaymentServices.PaymentService.ActivateConfirmed | apps/viewer/src-tauri/src/payment_service.rs:316-398 | Likewise for `activate`: result, memory, disk and every intermediate disk state |
| PaymentServices.PaymentService.CheckArchiveMetadata | apps/viewer/src-tauri/src/payment_service.rs:171-201 | Likewise for `check_metadata` |
| PaymentServices.PaymentService.VerifyActive | apps/viewer/src-tauri/src/payment_service.rs:259-313 | Likewise for `verify_payment`; an Ok answer means the reply was a status, and view, memory and record are the active intent with exactly that status |
| PaymentServices.PaymentService.RefreshGrant | apps/viewer/src-tauri/src/payment_service.rs:401-488 | Likewise for `refresh` |
| PaymentServices.PaymentService.ResumableIntentSecret | apps/viewer/src-tauri/src/payment_service.rs:505-529 | Likewise for the lookup that discards an intent whose secret is missing or malformed |
| PaymentServices.PaymentService.WriteVerifiedSecret | apps/viewer/src-tauri/src/payment_service.rs:598-612 | Likewise for a write that may fail before or after taking effect |
| PaymentServices.PaymentService.OpenArchive | apps/viewer/src-tauri/src/lib.rs:206-213 | Opening an archive: the runtime reset, the offline restore on the rollback manager and, after an unlock only, the clean-up; an unlock means the stored grant was authentic, for this archive and device, and in its window |
| PaymentServices.PaymentService.Perform | apps/viewer/src-tauri/src/payment_service.rs:146-579 | Any operation on the object is the step of the protocol, so the run theorems speak about it |
| Sessions.ShownBelongs | apps/viewer/src-tauri/src/archive_service.rs:308-348 | In every interleaving of switches, re-installs, begins, cancels and the two halves of each open, the installed reader was opened on the identity stored beside it and what is shown was read by this session from the file its request was begun for |
| Sessions.RunKeeps | apps/viewer/src-tauri/src/archive_service.rs:121-167 | The invariant behind it holds over every run |
| Sessions.CompletesItsOwn | apps/viewer/src-tauri/src/archive_service.rs:315-341 | Bytes that complete a request were read for that request |
| Sessions.TokensNeverRevive | apps/viewer/src-tauri/src/archive_service.rs:254-278 | A deadline token of a session that is over never relocks a later one, over any run |
| Sessions.HandlesNeverRevive | apps/viewer/src-tauri/src/renderer.rs:177-192 | A renderer handle that was accepted and has stopped being accepted is never accepted again |
| SessionRuns.EnforcesExactly | apps/viewer/src-tauri/src/archive_service.rs:169-184 | Enforcement answers `RefreshRequired` if and only if a running session has reached its deadline, and then locks its archive; otherwise nothing changes |
| SessionRuns.ExpiresExactly | apps/viewer/src-tauri/src/archive_service.rs:254-278 | A token relocks if and only if it is the token of the running session and its deadline has come |
| SessionRuns.NoAccessAfterDeadline | apps/viewer/src-tauri/src/archive_service.rs:280-298 | Whatever runs between the section that enforces the deadline at `now` and the section that does the work, no begin, read, completion or read by handle succeeds in a session whose deadline is at or before `now`, unless it was installed in between |
| SessionRuns.EnforcedUntilInstalled | apps/viewer/src-tauri/src/archive_service.rs:169-184 | As long as no installation finishes, after an enforcement at `now` a running session has a deadline later than `now` |
| SessionRuns.LateInstallSlipsThrough | apps/viewer/src-tauri/src/archive_service.rs:148-167 | A run of the exception: an installation that finishes between the two sections opens a session past its deadline to the operation |
| SessionRuns.TokenRelocksItsSession | apps/viewer/src-tauri/src/archive_service.rs:238-278 | A token taken from a running session relocks, after any run, if and only if that session still runs and its deadline has come |
| SessionRuns.SessionHasAnOrigin | apps/viewer/src-tauri/src/archive_service.rs:82-167 | In every interleaving: the archive of the session is one whose verification finished in the run, and files and deadline of a running session are those of an installation for exactly that archive |
| SessionRuns.ShownIsAFile | apps/viewer/src-tauri/src/archive_service.rs:308-348 | In every interleaving: what is shown, and what a read by handle finds, is a file of the archive with its own size, in the renderer of its own kind |
| SessionRuns.ClosedStaysClosed | apps/viewer/src-tauri/src/renderer.rs:184-193 | A closed handle is never accepted again |
| SessionRuns.CancelledNeverOpens | apps/viewer/src-tauri/src/renderer.rs:167-175 | A request cancelled while pending is never read for and never completed, over any run |
| SessionRuns.ReplacedNeverOpens | apps/viewer/src-tauri/src/renderer.rs:110-127 | A new request replaces the pending one and the shown renderer for good |
| Renderers.IdentifiersInjective | apps/viewer/src-tauri/src/renderer.rs:110-165 | No two requests of any sessions share a request id or a handle |
| Renderers.RendererRegistry.CompleteOpen | apps/viewer/src-tauri/src/renderer.rs:141-165 | The imperative registry update equals the step of the registry machine |
| Renderers.RendererRegistry.BeginOpen | apps/viewer/src-tauri/src/renderer.rs:110-127 | Likewise for `begin`, which supersedes the pending request |
| ArchiveServices.ArchiveService.InstallReader | apps/viewer/src-tauri/src/archive_service.rs:148-167 | The second locked section of an installation is the step of the session machine, identity check included |
| ArchiveServices.ArchiveService.ExpireSession | apps/viewer/src-tauri/src/archive_service.rs:254-278 | Relocks exactly when the token is that of the running session and its deadline has come; the session is unchanged otherwise |
| ArchiveServices.ArchiveService.EnforceDeadline | apps/viewer/src-tauri/src/archive_service.rs:169-184 | The imperative check equals the step of the session machine: afterwards a running session has a deadline later than `now`, and the answer is `RefreshRequired` exactly if it had not |
| ArchiveServices.ArchiveService.CompleteRenderer | apps/viewer/src-tauri/src/archive_service.rs:337-341 | The second locked section of an open is the step of the session machine |
| Crc32.Checksum | apps/web/src/lib/zip.ts:26-30 | Table-driven CRC-32 equals bit-by-bit reflected division by 0xEDB88320, for every byte sequence (section 8 of RFC 1952) |
| Crc32.BuildTable | apps/web/src/lib/zip.ts:15-23 | The table holds, for every byte, eight division steps |
| Crc32.Lookup | apps/web/src/lib/zip.ts:28-28 | One lookup and a shift replace eight division steps |
| Crc32.DivideByte | apps/web/src/lib/zip.ts:26-30 | Dividing the bits of a byte is eight steps on register plus byte |
| CheckValues.PolynomialTerms | apps/web/src/lib/zip.ts:19-19 | The constant is the polynomial of IEEE 802.3: which powers of x it has |
| CheckValues.CheckAllOnes | apps/web/src/lib/zip.ts:26-30 | The known checksum of the byte 0xFF, 0xFF000000, which fixes initial value, bit order and final inversion |
| CheckValues.CheckSevenOnes | apps/web/src/lib/zip.ts:26-30 | The known checksum of the byte 0x7F, which is one subtraction of the polynomial more |
| ZipNames.UniqueNames | apps/web/src/lib/zip.ts:51-60 | Every file keeps its name or gets the first free number; no two names agree ignoring case |
| ZipNames.FirstFree | apps/web/src/lib/zip.ts:55-56 | The renaming loop ends, with the first candidate not taken |
| ZipNames.CandidatesDiffer | apps/web/src/lib/zip.ts:41-44 | Two numbered candidates of one name never agree, not even ignoring case |
| ZipNames.NumberBeforeExtension | apps/web/src/lib/zip.ts:41-44 | A renamed file keeps its extension: the number, from 2 on, goes in front of the last dot, or to the end of a name that has none or only starts with one |
| Zip.CreateZip | apps/web/src/lib/zip.ts:66-123 | Writes the archive of the files, in order, under names that are all different ignoring case |
| Zip.ReadZipEntries | apps/web/src/mocks/zip-entries.ts:7-38 | Finds the last end record in reach, or none, and lists the directory it points at, with the same refusals |
| Zip.WriteThenList | apps/web/src/lib/zip.ts:66-123 | Reading back a written archive lists exactly the unique names and sizes in order, within the 32-bit limits exactly when there are fewer than 65,536 files and no file name starts with a byte-order mark |
| Zip.MarkedNameIsLost | apps/web/src/mocks/zip-entries.ts:9-33 | Two files with different unique names, one of them starting with U+FEFF, that are listed under one name |
| Zip.UniqueKeepsMark | apps/web/src/lib/zip.ts:41-60 | A unique name starts with a byte-order mark exactly when the name it was made from does |
| Zip.ZipListsItsFiles | apps/web/src/lib/zip.ts:115-120 | With more files the listing is the first `count % 65,536` of them |
| Zip.OffsetsLeadToFiles | apps/web/src/lib/zip.ts:96-112 | The offset recorded in each directory entry leads to that file: header, name and bytes |
| Zip.StoredChecksum | apps/web/src/lib/zip.ts:80-90 | The checksum stored with a file is the remainder of its content |
| Layouts.LocalHeaderByOffset | apps/web/src/lib/zip.ts:83-93 | Which field of the local header lies at which byte |
| Layouts.DirectoryEntryByOffset | apps/web/src/lib/zip.ts:96-108 | Which field of the directory entry lies at which byte |
| Layouts.EntryAgreesWithHeader | apps/web/src/lib/zip.ts:83-108 | Bytes 6 to 32 of a directory entry are bytes 4 to 30 of its local header: checksum, sizes, stamp and name length agree |
| Layouts.EndRecordByOffset | apps/web/src/lib/zip.ts:115-120 | Which field of the end record lies at which byte |
| Base58.Decode | apps/web/src/lib/solana-address.ts:26-52 | For every string the result is the big-endian value of its digits behind one zero byte per leading `1` |
| Base58.AlphabetIndexed | apps/web/src/lib/solana-address.ts:14-14 | The digit of a character is its place in the alphabet string, and characters outside it have none |
| Base58.MultiplyAdd | apps/web/src/lib/solana-address.ts:35-44 | The in-place carry loop multiplies by 58 and adds the digit; the carry never exceeds 57 and no zero byte is left on top |
| Base58.DecodeInjective | apps/web/src/lib/solana-address.ts:26-52 | Two different strings never decode to the same bytes |
| Base58.DecodeEncoded | apps/web/src/lib/solana-address.ts:26-52 | Every non-empty byte string is the decoding of its encoding |
| Base58.EncodeDecoded | apps/web/src/lib/solana-address.ts:26-52 | Every valid string is the encoding of its decoding |
| Base58.IsSolanaAddress | apps/web/src/lib/solana-address.ts:55-58 | Accepts exactly the strings that stand for 32 bytes |
| UploadQueues.QueueIsSafe | apps/web/src/lib/use-archive-upload.ts:93-217 | In every interleaving of add, cancel, retry and completions, a rejecting refresh included, at most one item is uploading and every queued item has its files |
| UploadQueues.NoLostWakeUp | apps/web/src/lib/use-archive-upload.ts:93-217 | As long as no refresh rejects, an idle pump leaves nothing queued, uploading or done |
| UploadQueues.RunKeeps | apps/web/src/lib/use-archive-upload.ts:93-217 | The invariant behind it holds over every run |
| UploadOutcomes.OutcomeLeaves | apps/web/src/lib/use-archive-upload.ts:134-147 | A transfer that succeeds leaves its item done and drops its files, an aborted one leaves it canceled and drops them, a failed one leaves it failed and keeps them; other items and files stay |
| UploadOutcomes.FilesFollowStatus | apps/web/src/lib/use-archive-upload.ts:93-217 | In every interleaving the files of an item are there exactly until it is done or canceled, so whatever failed can be retried |
| UploadOutcomes.DoneWasTransferred | apps/web/src/lib/use-archive-upload.ts:134-135 | In every interleaving an item is done only if a transfer of it succeeded |
| UploadQueues.AdvanceKeeps | apps/web/src/lib/use-archive-upload.ts:99-111 | The pump picks the first queued item, whose files are always at hand: the branch for missing files is never taken |
| UploadQueues.WaitsWithoutPump | apps/web/src/lib/use-archive-upload.ts:149-165 | Over every run, an item waits without a pump exactly when a rejected refresh found it queued and neither its cancellation nor new files nor an accepted retry came since |
| UploadQueues.AddRevives | apps/web/src/lib/use-archive-upload.ts:168-192 | However the pump stopped, new files start it again |
| UploadQueues.LostWakeUp | apps/web/src/lib/use-archive-upload.ts:149-165 | A run that would leave an item behind: files chosen during an upload whose refresh rejects |
| UploadQueues.UploadQueue.PumpOn | apps/web/src/lib/use-archive-upload.ts:98-111 | The imperative loop up to its next await is the step of the queue machine |
| UploadQueues.UploadQueue.Serve | apps/web/src/lib/use-archive-upload.ts:93-217 | Callbacks and settled awaits in any order take the object through the run of the queue machine |
| JsonDepth.AssertJsonDepth | apps/api/src/common/viewer-request-limits.ts:10-29 | The explicit-stack check terminates on every value and accepts exactly those without nine containers one inside the other, elements of arrays and members of objects alike |
| JsonDepth.Visit | apps/api/src/common/viewer-request-limits.ts:12-28 | Popping one entry preserves whether anything pending leads too deep, and shrinks the work |
| JsonDepth.ThroughAChild | crates/solarch-core/src/canonical.rs:84-90 | The recursive depth of a container exceeds the limit exactly through a child one level down |
| JsonDepth.DepthIsTheLongestChain | crates/solarch-core/src/canonical.rs:84-90 | The recursive depth is at least `n` if and only if there is a chain of `n` containers, each an element or a member of the one before |

## Left out

- Cipher, HKDF, HPKE, Ed25519 and SHA-256 internals: external crates; parameters with length and inverse laws.
- Unicode normalisation, case folding and lower-casing tables: parameters; folding is per character, fixes `/` and produces it from nothing else; lower-casing treats the parts around a number in parentheses separately and leaves the number alone.
- JSON text and the strict visitor of `canonical.rs`: canonical JSON is a codec parameter whose decoder inverts it; the depth gate itself is modelled.
- Files that change while an operation reads them, symbolic links, reparse points and the identity checks of sources and of the reader (`source.rs:148-212`, `archive.rs:342-389`): a file is a stable byte sequence with a cursor. Changes of the pending and output files between the operations of a build are modelled; two identities name one object as on Unix, by device and inode.
- Input and output errors other than an occupied path, a missing file or a failing store write.
- Public header fields other than the archive id: one `details` field with an acceptability parameter.
- Content sniffing of PDF, image and OOXML sources (`source.rs:288-680`): one recognition parameter.
- DOCX, XLSX and image parsing in the viewer: only their effect on the registry, success or failure, is modelled.
- The HTTP backend, clocks, nonces and the keyring: arbitrary inputs to each operation; a keyring call may fail before or after it took effect, file replacement is atomic.
- `verify_payment` refusing while another operation runs (`try_lock`), poisoned mutexes and wrap-around of 64-bit serials.
- `verify_finalized_with_content`, `inspect_signing_key_id` and `verify_archive`: compositions of modelled steps.
- Upload progress ratios, the list of refused files and `splitUploadFiles`: display only.
- Names that are not sequences of Unicode scalar values: a browser file name always is one.
- `dosStamp`: the packed time and date are parameters of `CreateZip`.
- `String.trim` in front of the base58 decoder: the model starts from the trimmed string.
- Order of evaluation across two interleaved awaits inside one `refresh`: a refresh is one await.
- Preparation.Prepare: says exactly when it succeeds, not which of several errors a refused request gets; the same holds for `OpenReader`, `VerifyPending` and `Validate`.
