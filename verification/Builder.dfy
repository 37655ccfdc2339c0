/** Building the manifest, the index and the encrypted data section.
    Models the builder half of crates/solarch-core/src/archive.rs. */
module Builder {
  import opened Outcomes
  import opened Results
  import opened Bytes
  import opened Paths
  import opened Manifests
  import opened Container
  import opened ProductionCrypto
  import opened Discovery
  import opened Platforms
  import opened Chunks
  import Sequences

  // ----- what is built -----

  function Ids(first: nat, n: nat): (ids: seq<nat>)
    ensures |ids| == n && forall k :: 0 <= k < n ==> ids[k] == first + k
  {
    if n == 0 then [] else Ids(first, n - 1) + [first + n - 1]
  }

  function FileOf(p: Platform, sources: seq<SourceFile>, n: nat): ManifestFile
    requires n < |sources|
  {
    var source := sources[n];
    ManifestFile(FileId(n), source.path, LastComponent(source.path), source.mime, |source.content|,
                 Digest(p, source.content), Ids(|AllChunks(sources, n)|, ChunkCount(|source.content|)), DEFAULT_POLICY)
  }

  function FilesOf(p: Platform, sources: seq<SourceFile>, n: nat): (files: seq<ManifestFile>)
    requires n <= |sources|
    ensures |files| == n
  {
    if n == 0 then [] else FilesOf(p, sources, n - 1) + [FileOf(p, sources, n - 1)]
  }

  function ManifestOf(p: Platform, archiveId: string, sources: seq<SourceFile>): Manifest {
    Manifest(archiveId, FilesOf(p, sources, |sources|))
  }

  lemma {:induction false} FileAtIndex(p: Platform, sources: seq<SourceFile>, n: nat, i: nat)
    requires i < n <= |sources|
    ensures FilesOf(p, sources, n)[i] == FileOf(p, sources, i)
  {
    if i < n - 1 { FileAtIndex(p, sources, n - 1, i); }
  }

  lemma {:induction false} BuiltTotals(p: Platform, sources: seq<SourceFile>, n: nat)
    requires n <= |sources|
    ensures var files := FilesOf(p, sources, |sources|);
      && ChunkBase(files, n) == |AllChunks(sources, n)|
      && SizeBefore(files, n) == ContentBytes(sources[..n])
  {
    if n > 0 {
      BuiltTotals(p, sources, n - 1);
      FileAtIndex(p, sources, |sources|, n - 1);
      SplitCount(sources[n - 1].content);
      ContentBytesOfPrefix(sources, n - 1);
    }
  }

  lemma {:induction false} BuiltPaths(p: Platform, sources: seq<SourceFile>, n: nat, path: string)
    requires n <= |sources| && path in PathsBefore(FilesOf(p, sources, |sources|), n)
    ensures exists i :: 0 <= i < n && sources[i].path == path
  {
    FileAtIndex(p, sources, |sources|, n - 1);
    if path != sources[n - 1].path { BuiltPaths(p, sources, n - 1, path); }
  }

  lemma {:induction false} PrefixBytes(sources: seq<SourceFile>, n: nat)
    requires n <= |sources|
    ensures ContentBytes(sources[..n]) <= ContentBytes(sources)
  {
    assert sources == sources[..n] + sources[n..];
    ContentBytesConcat(sources[..n], sources[n..]);
  }

  lemma BuiltEntryFields(p: Platform, sources: seq<SourceFile>, n: nat)
    requires Lawful(p) && n < |sources| && ValidSource(p.tables, sources[n])
    ensures ValidEntry(FileOf(p, sources, n), n)
  {
    var path := sources[n].path;
    assert LastComponent(path) in Components(path);
    assert SafeComponent(LastComponent(path));
  }

  lemma NoEarlierConflict(p: Platform, sources: seq<SourceFile>, n: nat)
    requires n < |sources| && PathsIncrease(sources) && PairwiseFree(p.tables, multiset(PathList(sources)))
    ensures forall q {:trigger Conflict(p.tables, q, sources[n].path)} ::
      q in PathsBefore(FilesOf(p, sources, |sources|), n) ==> !Conflict(p.tables, q, sources[n].path)
  {
    forall q | q in PathsBefore(FilesOf(p, sources, |sources|), n)
      ensures !Conflict(p.tables, q, sources[n].path)
    {
      BuiltPaths(p, sources, n, q);
      var i :| 0 <= i < n && sources[i].path == q;
      var paths := PathList(sources);
      assert paths[i] in paths && paths[n] in paths;
      assert Less(q, sources[n].path);
      LessIrreflexive(q);
    }
  }

  lemma BuiltEntryFits(p: Platform, sources: seq<SourceFile>, n: nat)
    requires Lawful(p) && ValidInventory(p.tables, sources) && n < |sources|
    ensures EntryFits(p.tables, FilesOf(p, sources, |sources|), n)
  {
    FileAtIndex(p, sources, |sources|, n);
    BuiltEntryFields(p, sources, n);
    NoEarlierConflict(p, sources, n);
    BuiltNumbers(p, sources, n);
    if n > 0 { BuiltOrder(p, sources, n); }
  }

  lemma BuiltOrder(p: Platform, sources: seq<SourceFile>, n: nat)
    requires 0 < n < |sources| && PathsIncrease(sources)
    ensures Less(FilesOf(p, sources, |sources|)[n - 1].path, FilesOf(p, sources, |sources|)[n].path)
  {
    FileAtIndex(p, sources, |sources|, n);
    FileAtIndex(p, sources, |sources|, n - 1);
  }

  lemma BuiltNumbers(p: Platform, sources: seq<SourceFile>, n: nat)
    requires n < |sources| && ContentBytes(sources) <= MAX_TOTAL_SIZE_BYTES
    ensures var files := FilesOf(p, sources, |sources|);
      && SizeBefore(files, n + 1) <= MAX_TOTAL_SIZE_BYTES
      && forall k :: 0 <= k < |files[n].chunks| ==> files[n].chunks[k] == ChunkBase(files, n) + k
  {
    FileAtIndex(p, sources, |sources|, n);
    BuiltTotals(p, sources, n);
    BuiltTotals(p, sources, n + 1);
    PrefixBytes(sources, n + 1);
  }

  /** What the builder numbers and describes always passes manifest validation. */
  lemma BuiltManifestIsValid(p: Platform, archiveId: string, sources: seq<SourceFile>)
    requires Lawful(p) && ValidInventory(p.tables, sources) && ValidId(archiveId)
    ensures AllNormalized(p.tables, ManifestOf(p, archiveId, sources).files)
    ensures ValidManifest(p.tables, ManifestOf(p, archiveId, sources), archiveId, |AllChunks(sources, |sources|)|)
  {
    var files := FilesOf(p, sources, |sources|);
    ChunkBudget(sources);
    BuiltTotals(p, sources, |sources|);
    forall i | 0 <= i < |files| ensures Normalized(p.tables, files[i].path) && EntryFits(p.tables, files, i) {
      FileAtIndex(p, sources, |sources|, i);
      assert ValidSource(p.tables, sources[i]);
      BuiltEntryFits(p, sources, i);
    }
  }

  // ----- building it -----

  lemma {:induction false} NextChunkLength(all: seq<seq<Byte>>, first: nat, content: seq<Byte>, k: nat)
    requires Holds(all, first, content) && k < |SplitChunks(content)|
    ensures first + k < |all| && k * CHUNK_SIZE < |content|
    ensures var left := |content| - k * CHUNK_SIZE; |all[first + k]| == if left < CHUNK_SIZE then left else CHUNK_SIZE
  {
    ChunkIsSlice(content, k);
    assert all[first + k] == SplitChunks(content)[k];
  }

  /** Numbers the chunks of one file and appends their records; `all` are the chunks of
      the whole inventory. */
  method NumberChunks(size: nat, recordsBefore: seq<IndexRecord>, offsetBefore: nat,
                      ghost all: seq<seq<Byte>>, ghost content: seq<Byte>)
    returns (chunks: seq<nat>, records: seq<IndexRecord>, dataOffset: nat)
    requires size == |content| && Holds(all, |recordsBefore|, content)
    requires recordsBefore == RecordsUpTo(all, |recordsBefore|) && offsetBefore == CipherOffset(all, |recordsBefore|)
    ensures chunks == Ids(|recordsBefore|, ChunkCount(size))
    ensures |records| == |recordsBefore| + ChunkCount(size) <= |all|
    ensures records == RecordsUpTo(all, |records|) && dataOffset == CipherOffset(all, |records|)
  {
    var remaining := size;
    chunks, records, dataOffset := [], recordsBefore, offsetBefore;
    SplitCount(content);
    while remaining != 0
      invariant |chunks| <= ChunkCount(size) && |records| == |recordsBefore| + |chunks|
      invariant remaining == if size <= |chunks| * CHUNK_SIZE then 0 else size - |chunks| * CHUNK_SIZE
      invariant chunks == Ids(|recordsBefore|, |chunks|)
      invariant records == RecordsUpTo(all, |records|) && dataOffset == CipherOffset(all, |records|)
      decreases remaining
    {
      NextChunkLength(all, |recordsBefore|, content, |chunks|);
      var plaintext := if remaining < CHUNK_SIZE then remaining else CHUNK_SIZE;
      chunks := chunks + [|records|];
      records := records + [IndexRecord(dataOffset, plaintext + AEAD_TAG_BYTES, plaintext)];
      dataOffset := dataOffset + plaintext + AEAD_TAG_BYTES;
      remaining := remaining - plaintext;
    }
  }

  method DescribeFile(p: Platform, sources: seq<SourceFile>, ordinal: nat, recordsBefore: seq<IndexRecord>,
                      offsetBefore: nat, ghost all: seq<seq<Byte>>)
    returns (file: ManifestFile, records: seq<IndexRecord>, dataOffset: nat)
    requires ordinal < |sources| && all == AllChunks(sources, |sources|)
    requires |recordsBefore| == |AllChunks(sources, ordinal)| <= |all|
    requires recordsBefore == RecordsUpTo(all, |recordsBefore|) && offsetBefore == CipherOffset(all, |recordsBefore|)
    ensures file == FileOf(p, sources, ordinal)
    ensures |records| == |AllChunks(sources, ordinal + 1)| <= |all|
    ensures records == RecordsUpTo(all, |records|) && dataOffset == CipherOffset(all, |records|)
  {
    var source, chunks := sources[ordinal], [];
    ChunksOfFile(sources, ordinal, |sources|);
    SplitCount(source.content);
    chunks, records, dataOffset :=
      NumberChunks(|source.content|, recordsBefore, offsetBefore, all, source.content);
    file := ManifestFile(FileId(ordinal), source.path, LastComponent(source.path), source.mime,
                         |source.content|, Digest(p, source.content), chunks, DEFAULT_POLICY);
  }

  /** Describes the files one by one. */
  method DescribeFiles(p: Platform, sources: seq<SourceFile>)
    returns (files: seq<ManifestFile>, records: seq<IndexRecord>)
    ensures files == FilesOf(p, sources, |sources|)
    ensures records == RecordsOf(AllChunks(sources, |sources|))
  {
    files, records := [], [];
    ghost var all := AllChunks(sources, |sources|);
    var dataOffset, ordinal := INDEX_DATA_PREFIX_BYTES, 0;
    while ordinal < |sources|
      invariant 0 <= ordinal <= |sources| && files == FilesOf(p, sources, ordinal)
      invariant |records| == |AllChunks(sources, ordinal)| <= |all|
      invariant records == RecordsUpTo(all, |records|) && dataOffset == CipherOffset(all, |records|)
    {
      var file;
      file, records, dataOffset := DescribeFile(p, sources, ordinal, records, dataOffset, all);
      files := files + [file];
      ordinal := ordinal + 1;
    }
  }

  /** The manifest and the index records of an inventory. Validation never refuses them. */
  method BuildManifestAndRecords(p: Platform, header: PublicHeader, sources: seq<SourceFile>)
    returns (r: Result<(Manifest, seq<IndexRecord>)>)
    requires Lawful(p) && ValidInventory(p.tables, sources)
    ensures r.Ok? <==> ValidId(header.archiveId)
    ensures r.Ok? ==> r.value == (ManifestOf(p, header.archiveId, sources), RecordsOf(AllChunks(sources, |sources|)))
  {
    var files, records := DescribeFiles(p, sources);
    NormalizedFiles(p, sources);
    if ValidId(header.archiveId) { BuiltManifestIsValid(p, header.archiveId, sources); }
    var manifest := Manifest(header.archiveId, files);
    var _ :- Validate(p.tables, manifest, header.archiveId, |records|);
    return Ok((manifest, records));
  }

  lemma NormalizedFiles(p: Platform, sources: seq<SourceFile>)
    requires ValidInventory(p.tables, sources)
    ensures AllNormalized(p.tables, FilesOf(p, sources, |sources|))
  {
    var files := FilesOf(p, sources, |sources|);
    forall i | 0 <= i < |files| ensures Normalized(p.tables, files[i].path) {
      FileAtIndex(p, sources, |sources|, i);
      assert ValidSource(p.tables, sources[i]);
    }
  }

  // ----- the data section -----

  function SealedChunk(p: Platform, keys: Keys, chunks: seq<seq<Byte>>, k: nat): seq<Byte>
    requires k < |chunks|
  {
    p.seal(keys, ChunkSlot(k, |chunks[k]|), chunks[k])
  }

  /** The first `n` sealed chunks, one behind the other; each is bound to its number. */
  function SealedUpTo(p: Platform, keys: Keys, chunks: seq<seq<Byte>>, n: nat): seq<Byte>
    requires n <= |chunks|
  {
    if n == 0 then [] else SealedUpTo(p, keys, chunks, n - 1) + SealedChunk(p, keys, chunks, n - 1)
  }

  lemma {:induction false} SealedLength(p: Platform, keys: Keys, chunks: seq<seq<Byte>>, n: nat)
    requires Lawful(p) && n <= |chunks|
    ensures |SealedUpTo(p, keys, chunks, n)| == CipherOffset(chunks, n) - INDEX_DATA_PREFIX_BYTES
  {
    if n > 0 { SealedLength(p, keys, chunks, n - 1); }
  }

  /** The record of a chunk points at its ciphertext. */
  lemma {:induction false} SealedAt(p: Platform, keys: Keys, chunks: seq<seq<Byte>>, n: nat, k: nat)
    requires Lawful(p) && k < n <= |chunks|
    ensures var start := CipherOffset(chunks, k) - INDEX_DATA_PREFIX_BYTES;
      var end := start + |chunks[k]| + AEAD_TAG_BYTES;
      && end <= |SealedUpTo(p, keys, chunks, n)|
      && SealedUpTo(p, keys, chunks, n)[start..end] == SealedChunk(p, keys, chunks, k)
  {
    SealedLength(p, keys, chunks, n - 1);
    var before, last := SealedUpTo(p, keys, chunks, n - 1), SealedChunk(p, keys, chunks, n - 1);
    if k < n - 1 {
      SealedAt(p, keys, chunks, n - 1, k);
      var start := CipherOffset(chunks, k) - INDEX_DATA_PREFIX_BYTES;
      Sequences.SliceOfPrefix(before, before + last, start, start + |chunks[k]| + AEAD_TAG_BYTES);
    } else {
      LastSlice(before, last, |chunks[k]| + AEAD_TAG_BYTES);
    }
  }

  lemma LastSlice(before: seq<Byte>, last: seq<Byte>, length: nat)
    requires |last| == length
    ensures (before + last)[|before|..|before| + length] == last
  {
  }

  /** Record `id` describes `chunk`. */
  predicate RecordFits(records: seq<IndexRecord>, id: nat, chunk: seq<Byte>) {
    && id < |records| && id < MAX_CHUNK_COUNT
    && records[id].plaintextLength == |chunk| && records[id].ciphertextLength == |chunk| + AEAD_TAG_BYTES
  }

  ghost predicate RecordsFit(records: seq<IndexRecord>, chunks: seq<seq<Byte>>, from: nat, to: nat)
    requires from <= to <= |chunks|
  {
    forall k :: from <= k < to ==> RecordFits(records, k, chunks[k])
  }

  /** Reads, encrypts and appends the next chunk; `k` is its place in the file. */
  method StreamChunk(p: Platform, keys: Keys, content: seq<Byte>, position: nat, records: seq<IndexRecord>,
                     recordIndex: nat, output: seq<Byte>, ghost all: seq<seq<Byte>>, ghost k: nat)
    returns (r: Result<seq<Byte>>)
    requires Lawful(p) && k < |SplitChunks(content)| && position == k * CHUNK_SIZE
    requires recordIndex < |all| && all[recordIndex] == SplitChunks(content)[k]
    requires output == SealedUpTo(p, keys, all, recordIndex)
    ensures r.Ok? <==> RecordFits(records, recordIndex, all[recordIndex])
    ensures r.Ok? ==> r.value == SealedUpTo(p, keys, all, recordIndex + 1)
  {
    ChunkIsSlice(content, k);
    if recordIndex >= |records| {
      return Err(InvalidChunkMetadata);
    }
    var record := records[recordIndex];
    var remaining := |content| - position;
    if record.plaintextLength != if remaining < CHUNK_SIZE then remaining else CHUNK_SIZE {
      return Err(InvalidChunkMetadata);
    }
    var plaintext := content[position..position + record.plaintextLength];
    assert plaintext == all[recordIndex];
    var encrypted :- EncryptChunk(p, keys, recordIndex, plaintext);
    if |encrypted| != record.ciphertextLength {
      return Err(InvalidChunkMetadata);
    }
    return Ok(output + encrypted);
  }

  /** Encrypts one source file chunk by chunk behind `output`. */
  method StreamSource(p: Platform, keys: Keys, content: seq<Byte>, records: seq<IndexRecord>,
                      output: seq<Byte>, ghost all: seq<seq<Byte>>, firstRecord: nat)
    returns (r: Result<(seq<Byte>, nat)>)
    requires Lawful(p) && Holds(all, firstRecord, content) && output == SealedUpTo(p, keys, all, firstRecord)
    ensures var end := firstRecord + |SplitChunks(content)|;
      && (r.Ok? <==> RecordsFit(records, all, firstRecord, end))
      && (r.Ok? ==> r.value == (SealedUpTo(p, keys, all, end), end))
  {
    var remaining, recordIndex, written, position := |content|, firstRecord, output, 0;
    ghost var k := 0;
    SplitCount(content);
    while remaining != 0
      invariant 0 <= k <= |SplitChunks(content)| && recordIndex == firstRecord + k
      invariant remaining + position == |content|
      invariant position == if |content| <= k * CHUNK_SIZE then |content| else k * CHUNK_SIZE
      invariant written == SealedUpTo(p, keys, all, recordIndex)
      invariant RecordsFit(records, all, firstRecord, recordIndex)
      decreases remaining
    {
      written :- StreamChunk(p, keys, content, position, records, recordIndex, written, all, k);
      var count := if remaining < CHUNK_SIZE then remaining else CHUNK_SIZE;
      remaining, position := remaining - count, position + count;
      recordIndex, k := recordIndex + 1, k + 1;
    }
    return Ok((written, recordIndex));
  }

  /** The records and hashes agree with what is streamed. */
  ghost predicate DigestsMatch(p: Platform, sources: seq<SourceFile>, files: seq<ManifestFile>, n: nat)
    requires n <= |sources| == |files|
  {
    forall i :: 0 <= i < n ==> Digest(p, sources[i].content) == files[i].hash
  }

  ghost predicate StreamAccepts(p: Platform, sources: seq<SourceFile>, files: seq<ManifestFile>, records: seq<IndexRecord>)
    requires |sources| == |files|
  {
    var all := AllChunks(sources, |sources|);
    && RecordsFit(records, all, 0, |all|) && |records| == |all|
    && DigestsMatch(p, sources, files, |sources|)
  }

  /** One file of the stream: its chunks against the records, then its hash. */
  method StreamFile(p: Platform, sources: seq<SourceFile>, i: nat, expectedHash: string, records: seq<IndexRecord>,
                    keys: Keys, output: seq<Byte>, recordIndex: nat, ghost all: seq<seq<Byte>>)
    returns (r: Result<(seq<Byte>, nat)>)
    requires Lawful(p) && i < |sources| && all == AllChunks(sources, |sources|)
    requires recordIndex == |AllChunks(sources, i)| <= |all| && output == SealedUpTo(p, keys, all, recordIndex)
    ensures var end := |AllChunks(sources, i + 1)|;
      && end <= |all|
      && (r.Ok? <==> RecordsFit(records, all, recordIndex, end) && Digest(p, sources[i].content) == expectedHash)
      && (r.Ok? ==> r.value == (SealedUpTo(p, keys, all, end), end))
  {
    ChunksOfFile(sources, i, |sources|);
    var next :- StreamSource(p, keys, sources[i].content, records, output, all, recordIndex);
    if Digest(p, sources[i].content) != expectedHash {
      return Err(InvalidBuilderInput);
    }
    return Ok(next);
  }

  /** Writes the sealed chunks of all files in order, and refuses exactly when a record
      or a file hash does not match what is read. */
  method StreamEncryptedChunks(p: Platform, sources: seq<SourceFile>, manifest: Manifest,
                               records: seq<IndexRecord>, keys: Keys)
    returns (r: Result<seq<Byte>>)
    requires Lawful(p) && |sources| == |manifest.files|
    ensures r.Ok? <==> StreamAccepts(p, sources, manifest.files, records)
    ensures r.Ok? ==> r.value == SealedUpTo(p, keys, AllChunks(sources, |sources|), |records|)
  {
    ghost var all := AllChunks(sources, |sources|);
    var recordIndex, output, i := 0, [], 0;
    while i < |sources|
      invariant 0 <= i <= |sources| && recordIndex == |AllChunks(sources, i)| <= |all|
      invariant output == SealedUpTo(p, keys, all, recordIndex)
      invariant RecordsFit(records, all, 0, recordIndex)
      invariant DigestsMatch(p, sources, manifest.files, i)
    {
      var next :- StreamFile(p, sources, i, manifest.files[i].hash, records, keys, output, recordIndex, all);
      output, recordIndex := next.0, next.1;
      i := i + 1;
    }
    if recordIndex != |records| {
      return Err(InvalidChunkMetadata);
    }
    return Ok(output);
  }

  /** What the builder recorded is what it streams. */
  lemma BuiltStreamAccepts(p: Platform, archiveId: string, sources: seq<SourceFile>)
    requires |AllChunks(sources, |sources|)| <= MAX_CHUNK_COUNT
    ensures StreamAccepts(p, sources, ManifestOf(p, archiveId, sources).files, RecordsOf(AllChunks(sources, |sources|)))
  {
    forall i | 0 <= i < |sources| ensures Digest(p, sources[i].content) == FilesOf(p, sources, |sources|)[i].hash {
      FileAtIndex(p, sources, |sources|, i);
    }
  }
}
