/** The promise of the archive core: what was prepared verifies against its sources, and
    what was built and signed reads back byte for byte. */
module RoundTrips {
  import opened Outcomes
  import opened Results
  import opened Bytes
  import opened Streams
  import opened Paths
  import opened Manifests
  import opened Container
  import opened ProductionCrypto
  import opened Discovery
  import opened Platforms
  import opened Chunks
  import opened Builder
  import opened Verification
  import opened Preparation
  import opened Readers
  import opened Archives
  import Sequences

  // ----- where the built sections lie -----

  function BuiltRanges(p: Platform, b: Build): (ranges: seq<Range>)
    ensures |ranges| == 5
  {
    Tiling(BuiltLengths(p, b), PRELUDE_LEN)
  }

  /** The file starts with the pending bytes: it is the pending or the finished archive. */
  ghost predicate StartsWithBuild(p: Platform, b: Build, bytes: seq<Byte>) {
    Buildable(p, b) && PendingBytes(p, b) <= bytes
  }

  lemma FiveParts(prelude: seq<Byte>, parts: seq<seq<Byte>>, prefix: seq<Byte>, lengths: seq<nat>, bytes: seq<Byte>)
    requires |prelude| == PRELUDE_LEN && |parts| == 4 && |prefix| == 40
    requires lengths == [|parts[0]|, |parts[1]|, |parts[2]|, |parts[3]|, SIGNATURE_BLOCK_BYTES]
    requires prelude + parts[0] + parts[1] + parts[2] + parts[3] + prefix <= bytes
    ensures var ranges := Tiling(lengths, PRELUDE_LEN);
      && Inside(ranges, |bytes|) && (forall i :: 0 <= i < 4 ==> Part(bytes, ranges[i]) == parts[i])
      && ranges[4].start + 40 <= |bytes| && bytes[ranges[4].start..ranges[4].start + 40] == prefix
  {
    FiveRanges(lengths);
    var ranges, whole := Tiling(lengths, PRELUDE_LEN), prelude + parts[0] + parts[1] + parts[2] + parts[3] + prefix;
    Sequences.SliceOfPrefix(whole, bytes, ranges[0].start, ranges[0].end);
    Sequences.SliceOfPrefix(whole, bytes, ranges[1].start, ranges[1].end);
    Sequences.SliceOfPrefix(whole, bytes, ranges[2].start, ranges[2].end);
    Sequences.SliceOfPrefix(whole, bytes, ranges[3].start, ranges[3].end);
    Sequences.SliceOfPrefix(whole, bytes, ranges[4].start, ranges[4].start + 40);
    assert Part(bytes, ranges[0]) == parts[0] && Part(bytes, ranges[1]) == parts[1];
    assert Part(bytes, ranges[2]) == parts[2] && Part(bytes, ranges[3]) == parts[3];
  }

  lemma BuiltParts(p: Platform, b: Build, bytes: seq<Byte>)
    requires Lawful(p) && StartsWithBuild(p, b, bytes)
    ensures var ranges := BuiltRanges(p, b);
      && Inside(ranges, |bytes|)
      && Part(bytes, ranges[0]) == b.metadata && Part(bytes, ranges[1]) == SealedManifest(p, b)
      && Part(bytes, ranges[2]) == SealedIndex(p, b) && Part(bytes, ranges[3]) == DataSection(p, b)
      && ranges[4].start + 40 <= |bytes|
      && bytes[ranges[4].start..ranges[4].start + 40] == EncodePrefix(SignaturePrefix(b.keyId))
  {
    FiveParts(PreludeBytes(BuiltLengths(p, b)), BuiltSections(p, b), EncodePrefix(SignaturePrefix(b.keyId)),
              BuiltLengths(p, b), bytes);
  }

  // ----- the sealed manifest and index -----

  lemma ValidIsRepresentable(t: Tables, m: Manifest, archiveId: string, chunkCount: nat)
    requires AllNormalized(t, m.files) && ValidManifest(t, m, archiveId, chunkCount)
    ensures Representable(t, m)
  {
    forall i | 0 <= i < |m.files|
      ensures m.files[i].sizeBytes <= MAX_FILE_SIZE_BYTES && forall c :: c in m.files[i].chunks ==> c < MAX_CHUNKS
    {
      assert EntryFits(t, m.files, i);
      ChunkBaseMonotone(m.files, i + 1, |m.files|);
    }
  }

  lemma BuiltSeals(p: Platform, b: Build, bytes: seq<Byte>)
    requires Lawful(p) && StartsWithBuild(p, b, bytes) && Inside(BuiltRanges(p, b), |bytes|)
    ensures Seals(p, b.contentKey, bytes, BuiltRanges(p, b), BuiltManifest(p, b), RecordsOf(BuiltChunks(b)))
  {
    BuiltParts(p, b, bytes);
    SectionSizes(p, b);
    var m, id := BuiltManifest(p, b), ArchiveIdOf(p, b);
    HeaderFacts(p, b.metadata);
    BuiltManifestIsValid(p, id, b.sources);
    ValidIsRepresentable(p.tables, m, id, |BuiltChunks(b)|);
    assert p.manifestJson(m) != [];
    ManifestPayload(p, BuildKeys(b), p.manifestJson(m));
    IndexPayload(p, BuildKeys(b), Idx1Bytes(RecordsOf(BuiltChunks(b))));
  }

  lemma {:induction false} RecordedLength(chunks: seq<seq<Byte>>, first: nat, content: seq<Byte>, k: nat)
    requires Holds(chunks, first, content) && k < |SplitChunks(content)|
    ensures first + k < |RecordsOf(chunks)|
    ensures RecordsOf(chunks)[first + k].plaintextLength == ExpectedLength(|content|, k)
  {
    ChunkIsSlice(content, k);
    assert chunks[first + k] == SplitChunks(content)[k];
  }

  /** The records cut every file as the reader expects. */
  lemma BuiltCoversFile(p: Platform, b: Build, i: nat)
    requires i < |b.sources|
    ensures CoveredAt(BuiltManifest(p, b).files, RecordsOf(BuiltChunks(b)), i)
  {
    var files, all, content := BuiltManifest(p, b).files, BuiltChunks(b), b.sources[i].content;
    FileAtIndex(p, b.sources, |b.sources|, i);
    BuiltTotals(p, b.sources, i);
    ChunksOfFile(b.sources, i, |b.sources|);
    SplitCount(content);
    var first := ChunkBase(files, i);
    forall k | 0 <= k < |files[i].chunks| ensures ChunkCovered(files[i], first, RecordsOf(all), k) {
      RecordedLength(all, first, content, k);
    }
  }

  lemma BuiltProtects(p: Platform, b: Build, bytes: seq<Byte>)
    requires Lawful(p) && StartsWithBuild(p, b, bytes) && Inside(BuiltRanges(p, b), |bytes|)
    ensures Protects(p, b.contentKey, bytes, BuiltRanges(p, b), BuiltManifest(p, b), RecordsOf(BuiltChunks(b)))
  {
    BuiltSeals(p, b, bytes);
    BuiltParts(p, b, bytes);
    SectionSizes(p, b);
    var files, records := BuiltManifest(p, b).files, RecordsOf(BuiltChunks(b));
    BuiltTotals(p, b.sources, |b.sources|);
    forall i | 0 <= i < |files| ensures CoveredAt(files, records, i) {
      BuiltCoversFile(p, b, i);
    }
    RecordedOffset(BuiltChunks(b), |records|, |records|);
    assert DataSection(p, b)[..8] == Dat1Prefix(|records|);
  }

  // ----- the chunks -----

  lemma SliceOfSection(bytes: seq<Byte>, range: Range, prefix: seq<Byte>, payload: seq<Byte>, from: nat, sealed: seq<Byte>)
    requires range.start <= range.end <= |bytes| && Part(bytes, range) == prefix + payload
    requires |prefix| == 8 <= from && from - 8 + |sealed| <= |payload|
    requires payload[from - 8..from - 8 + |sealed|] == sealed
    ensures var start := range.start + from;
      start + |sealed| <= |bytes| && bytes[start..start + |sealed|] == sealed
  {
    var to := from + |sealed|;
    Sequences.SliceOfSlice(bytes, range.start, range.end, from, to);
    assert (prefix + payload)[from..to] == payload[from - 8..to - 8];
    assert range.start + to == range.start + from + |sealed|;
  }

  /** A file whose data range holds the built data section. */
  ghost predicate CarriesData(p: Platform, b: Build, bytes: seq<Byte>, range: Range) {
    range.start <= range.end <= |bytes| && Part(bytes, range) == DataSection(p, b)
  }

  lemma CiphertextOf(p: Platform, b: Build, bytes: seq<Byte>, range: Range, id: nat, sealed: seq<Byte>)
    requires Lawful(p) && CarriesData(p, b, bytes, range) && id < |BuiltChunks(b)|
    requires sealed == SealedChunk(p, BuildKeys(b), BuiltChunks(b), id)
    ensures var start := range.start + CipherOffset(BuiltChunks(b), id);
      start + |sealed| <= |bytes| && bytes[start..start + |sealed|] == sealed
  {
    var chunks := BuiltChunks(b);
    SealedAt(p, BuildKeys(b), chunks, |chunks|, id);
    assert |sealed| == |chunks[id]| + AEAD_TAG_BYTES;
    SliceOfSection(bytes, range, Dat1Prefix(|chunks|), SealedUpTo(p, BuildKeys(b), chunks, |chunks|),
                   CipherOffset(chunks, id), sealed);
  }

  /** The view of an archive that was built as `b` says. */
  ghost predicate ShowsBuild(p: Platform, b: Build, v: View) {
    && v.platform == p && v.keys == BuildKeys(b)
    && v.manifest == BuiltManifest(p, b) && v.records == RecordsOf(BuiltChunks(b)) && v.Valid()
    && |BuiltChunks(b)| <= MAX_CHUNK_COUNT
    && exists end :: CarriesData(p, b, v.bytes, Range(v.dataStart, end))
  }

  /** Every chunk of a built archive decrypts to what was cut from the sources. */
  lemma ChunkDecrypts(p: Platform, b: Build, v: View, id: nat)
    requires Lawful(p) && ShowsBuild(p, b, v) && id < |BuiltChunks(b)|
    ensures v.Chunk(id) == Ok(BuiltChunks(b)[id])
  {
    var chunks := BuiltChunks(b);
    var end :| CarriesData(p, b, v.bytes, Range(v.dataStart, end));
    AllChunkSizes(b.sources, |b.sources|, id);
    CiphertextOf(p, b, v.bytes, Range(v.dataStart, end), id, SealedChunk(p, BuildKeys(b), chunks, id));
    ChunkPayload(p, BuildKeys(b), id, chunks[id]);
    assert v.records[id] == RecordOf(chunks, id);
  }

  /** Chunk `k` of file `n` among all chunks. */
  lemma ChunkPlace(p: Platform, b: Build, n: nat, k: nat) returns (id: nat)
    requires n < |b.sources| && k < |SplitChunks(b.sources[n].content)|
    ensures k < |FileOf(p, b.sources, n).chunks| && FileOf(p, b.sources, n).chunks[k] == id
    ensures id < |BuiltChunks(b)| && BuiltChunks(b)[id] == SplitChunks(b.sources[n].content)[k]
  {
    SplitCount(b.sources[n].content);
    ChunksOfFile(b.sources, n, |b.sources|);
    id := |AllChunks(b.sources, n)| + k;
  }

  lemma FileChunkDecrypts(p: Platform, b: Build, v: View, n: nat, k: nat)
    requires Lawful(p) && ShowsBuild(p, b, v) && n < |b.sources|
    requires k < |SplitChunks(b.sources[n].content)|
    ensures v.manifest.files[n] == FileOf(p, b.sources, n) && k < |v.manifest.files[n].chunks|
    ensures v.FileChunk(n, k) == Ok(SplitChunks(b.sources[n].content)[k])
  {
    FileAtIndex(p, b.sources, |b.sources|, n);
    var id := ChunkPlace(p, b, n, k);
    ChunkDecrypts(p, b, v, id);
  }

  lemma ByteShows(p: Platform, b: Build, v: View, n: nat, at: nat)
    requires Lawful(p) && ShowsBuild(p, b, v) && n < |b.sources| && at < |b.sources[n].content|
    ensures v.Shows(n, at, b.sources[n].content[at])
  {
    var content, k := b.sources[n].content, at / CHUNK_SIZE;
    ByteInChunk(content, at);
    FileChunkDecrypts(p, b, v, n, k);
  }

  lemma ByteInChunk(content: seq<Byte>, at: nat)
    requires at < |content|
    ensures var k, within := at / CHUNK_SIZE, at % CHUNK_SIZE;
      && k < |SplitChunks(content)| && within < |SplitChunks(content)[k]|
      && SplitChunks(content)[k][within] == content[at]
  {
    SplitCount(content);
    ChunkIsSlice(content, at / CHUNK_SIZE);
  }

  /** The view holds exactly the bytes of every source file. */
  lemma BuildHolds(p: Platform, b: Build, v: View, n: nat)
    requires Lawful(p) && ShowsBuild(p, b, v) && n < |b.sources|
    ensures v.manifest.files[n] == FileOf(p, b.sources, n)
    ensures v.FileHolds(n, b.sources[n].content)
  {
    FileAtIndex(p, b.sources, |b.sources|, n);
    forall i | 0 <= i < |b.sources[n].content| ensures v.Shows(n, 0 + i, b.sources[n].content[i]) {
      ByteShows(p, b, v, n, i);
    }
  }

  /** Build then read is the identity: every range of every source file is readable, and
      whatever the reader's contract allows it to return is that slice of the source. */
  lemma BuildThenRead(p: Platform, b: Build, v: View, n: nat, offset: nat, length: nat, output: seq<Byte>)
    requires Lawful(p) && ShowsBuild(p, b, v) && n < |b.sources|
    requires offset + length <= |b.sources[n].content| && |output| == length
    ensures v.Readable(n, offset, offset + length)
    ensures v.Content(n, offset, output) <==> output == b.sources[n].content[offset..offset + length]
  {
    var content := b.sources[n].content;
    BuildHolds(p, b, v, n);
    SplitCount(content);
    forall k | 0 <= k < |v.manifest.files[n].chunks| ensures v.FileChunk(n, k).Ok? {
      FileChunkDecrypts(p, b, v, n, k);
    }
    forall i | 0 <= i < |output|
      ensures v.Shows(n, offset + i, output[i]) <==> output[i] == content[offset..offset + length][i]
    {
      assert v.Shows(n, 0 + (offset + i), content[offset + i]);
    }
  }

  // ----- the two promises -----

  lemma BuiltShowsBuild(p: Platform, b: Build, bytes: seq<Byte>)
    requires Lawful(p) && StartsWithBuild(p, b, bytes) && Inside(BuiltRanges(p, b), |bytes|)
    ensures ShowsBuild(p, b, ViewIn(p, bytes, BuiltRanges(p, b), b.contentKey, BuiltManifest(p, b), RecordsOf(BuiltChunks(b))))
  {
    var ranges := BuiltRanges(p, b);
    BuiltProtects(p, b, bytes);
    ProtectsIsValid(p, bytes, ranges, b.contentKey, BuiltManifest(p, b), RecordsOf(BuiltChunks(b)));
    BuiltParts(p, b, bytes);
    ChunkBudget(b.sources);
    assert CarriesData(p, b, bytes, Range(ranges[3].start, ranges[3].end));
  }

  /** The finished archive opens under its key and content key, and what it protects is
      the build. */
  lemma SignedBuildOpens(p: Platform, b: Build, publicKey: seq<Byte>, signature: seq<Byte>)
    requires Lawful(p) && Buildable(p, b) && |signature| == 64 && p.validKey(publicKey)
    requires p.signatureHolds(publicKey, p.sha256(PendingBytes(p, b)), signature)
    ensures var bytes := PendingBytes(p, b) + signature;
      && Opens(p, bytes, b.keyId, publicKey, Digest(p, bytes), b.contentKey, BuiltManifest(p, b), RecordsOf(BuiltChunks(b)))
      && ShowsBuild(p, b, ViewIn(p, bytes, RangesOf(bytes), b.contentKey, BuiltManifest(p, b), RecordsOf(BuiltChunks(b))))
  {
    var bytes := PendingBytes(p, b) + signature;
    SignedBuildIsAccepted(p, b, publicKey, signature);
    BuiltLayout(p, b, signature);
    BuiltProtects(p, b, bytes);
    BuiltShowsBuild(p, b, bytes);
  }

  lemma BuiltLayout(p: Platform, b: Build, signature: seq<Byte>)
    requires Lawful(p) && Buildable(p, b) && |signature| == 64
    ensures var bytes := PendingBytes(p, b) + signature;
      && SectionRangesOf(bytes, |bytes|) == Ok(BuiltRanges(p, b))
      && Inside(BuiltRanges(p, b), |bytes|)
  {
    var bytes, lengths := PendingBytes(p, b) + signature, BuiltLengths(p, b);
    BuildableLengths(p, b);
    PendingSize(p, b);
    PendingCompletes(p, b, signature);
    assert ContainerBytes(FinalSections(p, b, signature))[..96] == PreludeBytes(lengths);
    PreludeAccepted(bytes, |bytes|, lengths);
    BuiltParts(p, b, bytes);
  }

  lemma BuiltData(p: Platform, b: Build, v: View, data: seq<Byte>)
    requires Lawful(p) && ShowsBuild(p, b, v) && data == DataSection(p, b)
    ensures DataMatches(v, data)
  {
    var records := RecordsOf(BuiltChunks(b));
    RecordedOffset(BuiltChunks(b), |records|, |records|);
    SealedLength(p, BuildKeys(b), BuiltChunks(b), |records|);
    assert data[..8] == Dat1Prefix(|records|);
    forall n | 0 <= n < |v.manifest.files| ensures Authentic(v, n) {
      BuildHolds(p, b, v, n);
    }
  }

  lemma BuiltInventory(p: Platform, b: Build, rules: Rules, entries: seq<Entry>)
    requires Lawful(p) && Buildable(p, b) && Requested(rules, entries, b) && rules.tables == p.tables
    ensures Inventoried(p, rules, entries, BuiltManifest(p, b).files)
  {
    RequestedIsDiscovered(rules, entries, b);
    var files := BuiltManifest(p, b).files;
    forall i | 0 <= i < |files| ensures Matches(p, b.sources[i], files[i]) {
      FileAtIndex(p, b.sources, |b.sources|, i);
    }
    assert Discovered(rules, entries, b.sources) && AllMatch(p, b.sources, files);
  }

  /** Verification accepts what preparation wrote. */
  lemma PreparedVerifies(p: Platform, b: Build, rules: Rules, entries: seq<Entry>)
    requires Lawful(p) && Buildable(p, b) && Requested(rules, entries, b) && rules.tables == p.tables
    ensures VerifiesPending(p, PendingBytes(p, b), rules, entries, b.metadata, b.keyId, b.contentKey,
                            BuiltManifest(p, b), RecordsOf(BuiltChunks(b)))
  {
    BuiltLayout(p, b, Zeros(64));
    BuiltParses(p, b, Zeros(64));
    BuiltVerifies(p, b, PendingBytes(p, b), rules, entries);
  }

  lemma BuiltVerifies(p: Platform, b: Build, bytes: seq<Byte>, rules: Rules, entries: seq<Entry>)
    requires Lawful(p) && StartsWithBuild(p, b, bytes) && Requested(rules, entries, b) && rules.tables == p.tables
    ensures Inside(BuiltRanges(p, b), |bytes|) && BuiltRanges(p, b)[4].start + 40 <= |bytes|
    ensures Verifies(p, bytes, BuiltRanges(p, b), rules, entries, b.metadata, b.keyId, b.contentKey,
                     BuiltManifest(p, b), RecordsOf(BuiltChunks(b)))
  {
    BuiltParts(p, b, bytes);
    BuiltSeals(p, b, bytes);
    PrefixRoundTrip(SignaturePrefix(b.keyId));
    BuiltShowsBuild(p, b, bytes);
    BuiltData(p, b, ViewIn(p, bytes, BuiltRanges(p, b), b.contentKey, BuiltManifest(p, b), RecordsOf(BuiltChunks(b))),
              Part(bytes, BuiltRanges(p, b)[3]));
    BuiltInventory(p, b, rules, entries);
  }

  /** Opening a finished archive and reading any admissible range of any file succeeds
      and returns that slice of the source file. */
  method ReadBuiltRange(p: Platform, ghost b: Build, ghost signature: seq<Byte>, file: InputFile, keyId: seq<Byte>,
                        publicKey: seq<Byte>, fingerprint: string, contentKey: seq<Byte>,
                        n: nat, offset: nat, length: nat)
    returns (r: Result<seq<Byte>>)
    requires Lawful(p) && Buildable(p, b) && |signature| == 64 && p.validKey(publicKey)
    requires p.signatureHolds(publicKey, p.sha256(PendingBytes(p, b)), signature)
    requires file.bytes == PendingBytes(p, b) + signature && fingerprint == Digest(p, file.bytes)
    requires keyId == b.keyId && contentKey == b.contentKey
    requires n < |b.sources| && length <= MAX_PROTECTED_READ_BYTES && offset + length <= |b.sources[n].content|
    modifies file
    ensures r == Ok(b.sources[n].content[offset..offset + length])
  {
    SignedBuildOpens(p, b, publicKey, signature);
    var outcome := OpenReader(p, file, keyId, publicKey, fingerprint, contentKey);
    match outcome {
      case Err(e) => return Err(e);
      case Ok(reader) => r := ReadAsBuilt(p, b, reader, n, offset, length);
    }
  }

  method ReadAsBuilt(p: Platform, ghost b: Build, reader: ProtectedArchiveReader, n: nat, offset: nat, length: nat)
    returns (r: Result<seq<Byte>>)
    requires Lawful(p) && ShowsBuild(p, b, reader.Contents())
    requires n < |b.sources| && length <= MAX_PROTECTED_READ_BYTES && offset + length <= |b.sources[n].content|
    modifies reader.file
    ensures r == Ok(b.sources[n].content[offset..offset + length])
  {
    FileAtIndex(p, b.sources, |b.sources|, n);
    r := reader.ReadFileRange(FileId(n), offset, length);
    OnlyOutcome(p, b, reader.Contents(), n, offset, length, r);
  }

  /** On a built archive the reader's contract leaves one outcome. */
  lemma OnlyOutcome(p: Platform, b: Build, v: View, n: nat, offset: nat, length: nat, r: Result<seq<Byte>>)
    requires Lawful(p) && ShowsBuild(p, b, v)
    requires n < |b.sources| && offset + length <= |b.sources[n].content|
    requires n < |v.manifest.files| && v.RangeOutcome(n, offset, length, r)
    ensures r == Ok(b.sources[n].content[offset..offset + length])
  {
    FileAtIndex(p, b.sources, |b.sources|, n);
    BuildThenRead(p, b, v, n, offset, length, b.sources[n].content[offset..offset + length]);
    BuildThenRead(p, b, v, n, offset, length, r.value);
  }

}
