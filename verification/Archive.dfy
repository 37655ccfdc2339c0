/** Re-verifying a pending archive against its sources.
    Models verify_pending and what it calls in crates/solarch-core/src/archive.rs. */
module Archives {
  import opened Outcomes
  import opened Results
  import opened Bytes
  import opened Streams
  import opened Paths
  import opened Manifests
  import opened Container
  import opened ProductionCrypto
  import opened Discovery
  import opened Platforms
  import opened Chunks
  import opened Builder
  import opened Verification
  import opened Preparation
  import opened Readers

  // ----- the data section against the manifest -----

  /** File `n` authenticates completely and has the recorded hash. */
  ghost predicate Authentic(v: View, n: nat)
    requires v.Valid() && n < |v.manifest.files|
  {
    exists text :: v.FileHolds(n, text) && Digest(v.platform, text) == v.manifest.files[n].hash
  }

  lemma HeldChunk(v: View, n: nat, k: nat, text: seq<Byte>)
    requires v.Valid() && n < |v.manifest.files| && v.FileHolds(n, text) && k < |v.manifest.files[n].chunks|
    ensures v.FileChunk(n, k).Ok?
  {
    assert k * CHUNK_SIZE < |text|;
    ChunkOfByte(k, 0);
    assert v.Shows(n, 0 + k * CHUNK_SIZE, text[k * CHUNK_SIZE]);
  }

  /** Where the ciphertext of record `id` starts in the file. */
  ghost function CipherStart(v: View, id: nat): nat
    requires id <= |v.records|
  {
    v.dataStart + DataOffset(v.records, id)
  }

  /** Reads and decrypts the next ciphertext, which belongs to place `k` of file `n`. */
  method NextChunk(v: View, file: InputFile, n: nat, k: nat, consumed: nat) returns (r: Result<seq<Byte>>)
    requires v.Valid() && v.bytes == file.bytes && n < |v.manifest.files| && k < |v.manifest.files[n].chunks|
    requires consumed == ChunkBase(v.manifest.files, n) + k <= |v.records| && file.position == CipherStart(v, consumed)
    modifies file
    ensures r == v.FileChunk(n, k)
    ensures r.Ok? ==> consumed < |v.records| && file.position == CipherStart(v, consumed + 1)
  {
    assert CoveredAt(v.manifest.files, v.records, n);
    assert ChunkCovered(v.manifest.files[n], ChunkBase(v.manifest.files, n), v.records, k);
    var chunkId := v.manifest.files[n].chunks[k];
    if chunkId != consumed || chunkId >= |v.records| {
      return Err(InvalidChunkMetadata);
    }
    v.ChunkInside(chunkId);
    var record := v.records[chunkId];
    var ciphertext := file.ReadExact(record.ciphertextLength);
    match ciphertext {
      case Err(e) => return Err(e);
      case Ok(_) =>
    }
    r := DecryptChunk(v.platform, v.keys, chunkId, record.plaintextLength, ciphertext.value);
  }

  /** Authenticates one file from its ciphertexts in file order. */
  method CheckFile(v: View, file: InputFile, n: nat, consumedBefore: nat) returns (r: Result<nat>)
    requires v.Valid() && v.bytes == file.bytes && n < |v.manifest.files|
    requires consumedBefore == ChunkBase(v.manifest.files, n) <= |v.records| && file.position == CipherStart(v, consumedBefore)
    modifies file
    ensures r.Ok? <==> Authentic(v, n)
    ensures r.Ok? ==> r.value == ChunkBase(v.manifest.files, n + 1) <= |v.records| && file.position == CipherStart(v, r.value)
  {
    var manifestFile, consumed, k := v.manifest.files[n], consumedBefore, 0;
    var hasher := new Hasher();
    while k < |manifestFile.chunks|
      invariant 0 <= k <= |manifestFile.chunks| && consumed == consumedBefore + k <= |v.records|
      invariant file.position == CipherStart(v, consumed)
      invariant |hasher.fed| == Lesser(manifestFile.sizeBytes, k * CHUNK_SIZE) && v.Content(n, 0, hasher.fed)
    {
      var plaintext := NextChunk(v, file, n, k, consumed);
      if plaintext.Err? {
        forall text | v.FileHolds(n, text) ensures false {
          HeldChunk(v, n, k, text);
        }
        return Err(plaintext.error);
      }
      v.ContentAppend(n, k, 0, manifestFile.sizeBytes, hasher.fed, plaintext.value);
      hasher.Update(plaintext.value);
      consumed, k := consumed + 1, k + 1;
    }
    assert v.FileHolds(n, hasher.fed);
    if |hasher.fed| != manifestFile.sizeBytes || LowercaseHex(v.platform.sha256(hasher.fed)) != manifestFile.hash {
      forall text | v.FileHolds(n, text) ensures text == hasher.fed {
        v.OneContent(n, text, hasher.fed);
      }
      return Err(IntegrityMismatch);
    }
    return Ok(consumed);
  }

  /** The data section holds exactly the files that the manifest describes. */
  ghost predicate DataMatches(v: View, data: seq<Byte>) {
    && Covered(v.manifest.files, v.records)
    && 8 <= |data| == DataOffset(v.records, |v.records|) && data[..8] == Dat1Prefix(|v.records|)
    && v.Valid()
    && forall n :: 0 <= n < |v.manifest.files| ==> Authentic(v, n)
  }

  method ValidateDataAndManifest(v: View, file: InputFile, dataRange: Range) returns (r: Result<()>)
    requires Lawful(v.platform) && ValidRecords(v.records) && Numbered(v.manifest.files)
    requires |v.manifest.files| <= MAX_FILES && v.bytes == file.bytes
    requires dataRange.start == v.dataStart && dataRange.start + 8 <= dataRange.end <= |file.bytes|
    modifies file
    ensures r.Ok? <==> DataMatches(v, Part(file.bytes, dataRange))
  {
    var _ :- ValidateManifestRecordLengths(v.manifest, v.records);
    var prefix := ReadRange(file, Range(dataRange.start, dataRange.start + 8));
    PartPrefix(file.bytes, dataRange);
    Dat1Fields(prefix, |v.records|);
    if prefix[..4] != DAT1 || FromLE(prefix[4..8]) != |v.records| {
      return Err(InvalidChunkMetadata);
    }
    var expectedLength := SumCiphertexts(v.records);
    if dataRange.end - dataRange.start != expectedLength {
      return Err(InvalidChunkMetadata);
    }
    r := CheckFiles(v, file);
  }

  ghost predicate AuthenticUpTo(v: View, i: nat)
    requires v.Valid() && i <= |v.manifest.files|
  {
    forall n :: 0 <= n < i ==> Authentic(v, n)
  }

  lemma OneMoreAuthentic(v: View, i: nat)
    requires v.Valid() && i < |v.manifest.files|
    ensures AuthenticUpTo(v, i) && Authentic(v, i) ==> AuthenticUpTo(v, i + 1)
    ensures AuthenticUpTo(v, |v.manifest.files|) ==> Authentic(v, i)
  {
  }

  method CheckFiles(v: View, file: InputFile) returns (r: Result<()>)
    requires v.Valid() && v.bytes == file.bytes
    modifies file
    ensures r.Ok? <==> AuthenticUpTo(v, |v.manifest.files|)
  {
    file.SeekStart(v.dataStart + INDEX_DATA_PREFIX_BYTES);
    var consumed, i := 0, 0;
    while i < |v.manifest.files|
      invariant 0 <= i <= |v.manifest.files| && consumed == ChunkBase(v.manifest.files, i) <= |v.records|
      invariant file.position == CipherStart(v, consumed)
      invariant AuthenticUpTo(v, i)
    {
      OneMoreAuthentic(v, i);
      consumed :- CheckFile(v, file, i, consumed);
      i := i + 1;
    }
    if consumed != |v.records| {
      return Err(InvalidChunkMetadata);
    }
    return Ok(());
  }

  // ----- the sources against the manifest -----

  /** The ordered files of a directory that discovery accepts. */
  ghost predicate Discovered(rules: Rules, entries: seq<Entry>, sources: seq<SourceFile>) {
    && Acceptable(rules, "", entries) && EntriesCount(entries) <= MAX_SOURCE_ENTRIES
    && AcceptableLeaves(rules.tables, Leaves(rules, "", entries))
    && PathsIncrease(sources) && multiset(sources) == multiset(Leaves(rules, "", entries))
  }

  predicate Matches(p: Platform, source: SourceFile, file: ManifestFile) {
    && source.path == file.path && source.mime == file.mimeType
    && |source.content| == file.sizeBytes && Digest(p, source.content) == file.hash
  }

  ghost predicate AllMatch(p: Platform, sources: seq<SourceFile>, files: seq<ManifestFile>) {
    |sources| == |files| && forall i :: 0 <= i < |files| ==> Matches(p, sources[i], files[i])
  }

  ghost predicate Inventoried(p: Platform, rules: Rules, entries: seq<Entry>, files: seq<ManifestFile>) {
    exists sources :: Discovered(rules, entries, sources) && AllMatch(p, sources, files)
  }

  method CompareInventory(p: Platform, sources: seq<SourceFile>, files: seq<ManifestFile>) returns (r: Result<()>)
    ensures r.Ok? <==> AllMatch(p, sources, files)
  {
    if |sources| != |files| {
      return Err(IntegrityMismatch);
    }
    var i := 0;
    while i < |files|
      invariant 0 <= i <= |files| && forall j :: 0 <= j < i ==> Matches(p, sources[j], files[j])
    {
      if sources[i].path != files[i].path || sources[i].mime != files[i].mimeType
         || |sources[i].content| != files[i].sizeBytes || Digest(p, sources[i].content) != files[i].hash
      {
        assert !Matches(p, sources[i], files[i]);
        return Err(IntegrityMismatch);
      }
      i := i + 1;
    }
    return Ok(());
  }

  method ValidateSourceInventory(p: Platform, rules: Rules, entries: seq<Entry>, manifest: Manifest) returns (r: Result<()>)
    requires Lawful(p) && rules.tables == p.tables
    ensures r.Ok? <==> Inventoried(p, rules, entries, manifest.files)
  {
    var sources :- Discover(rules, entries, MAX_SOURCE_ENTRIES);
    forall other | Discovered(rules, entries, other) ensures other == sources {
      OrderedListUnique(other, sources);
    }
    assert Discovered(rules, entries, sources);
    r := CompareInventory(p, sources, manifest.files);
  }

  // ----- verifying a pending archive -----

  /** What verification of the protected contents establishes; `ranges` are the sections
      of the completed file. */
  ghost predicate Verifies(p: Platform, bytes: seq<Byte>, ranges: seq<Range>, rules: Rules, entries: seq<Entry>,
                           metadata: seq<Byte>, keyId: seq<Byte>, contentKey: seq<Byte>,
                           manifest: Manifest, records: seq<IndexRecord>)
    requires Inside(ranges, |bytes|) && ranges[4].start + 40 <= |bytes|
  {
    && |metadata| <= MAX_HEADER && Part(bytes, ranges[0]) == metadata
    && ParsePrefix(bytes[ranges[4].start..ranges[4].start + 40]) == Ok(SignaturePrefix(keyId))
    && Seals(p, contentKey, bytes, ranges, manifest, records)
    && DataMatches(ViewIn(p, bytes, ranges, contentKey, manifest, records), Part(bytes, ranges[3]))
    && Inventoried(p, rules, entries, manifest.files)
  }

  lemma SealedIsNumbered(p: Platform, bytes: seq<Byte>, ranges: seq<Range>, contentKey: seq<Byte>,
                         manifest: Manifest, records: seq<IndexRecord>)
    requires Inside(ranges, |bytes|) && Seals(p, contentKey, bytes, ranges, manifest, records)
    ensures ValidRecords(records) && Numbered(manifest.files) && |manifest.files| <= MAX_FILES
  {
    var files := manifest.files;
    forall i | 0 <= i < |files| ensures files[i].fileId == FileId(i) && |files[i].chunks| == ChunkCount(files[i].sizeBytes) {
      assert EntryFits(p.tables, files, i);
    }
  }

  /** Succeeds exactly when header, key id, manifest, index, every file's bytes and the
      sources on disk agree. */
  method VerifyProtectedContents(p: Platform, file: InputFile, ranges: seq<Range>, rules: Rules, entries: seq<Entry>,
                                 metadata: seq<Byte>, keyId: seq<Byte>, contentKey: seq<Byte>)
    returns (r: Result<nat>, ghost manifest: Manifest, ghost records: seq<IndexRecord>)
    requires Lawful(p) && rules.tables == p.tables
    requires Inside(ranges, |file.bytes|) && ranges[3].start + 8 <= ranges[3].end && ranges[4].start + 40 <= |file.bytes|
    modifies file
    ensures r.Ok? ==> r.value == |manifest.files|
    ensures r.Ok? ==> Verifies(p, file.bytes, ranges, rules, entries, metadata, keyId, contentKey, manifest, records)
    ensures forall m, rs :: Verifies(p, file.bytes, ranges, rules, entries, metadata, keyId, contentKey, m, rs) ==>
      r == Ok(|m.files|)
  {
    manifest, records := Manifest("", []), [];
    if |metadata| > MAX_HEADER {
      return Err(LimitExceeded), manifest, records;
    }
    var _ :- ParseHeader(p.headers, metadata);
    var headerBytes := ReadRange(file, ranges[0]);
    if headerBytes != metadata {
      return Err(IntegrityMismatch), manifest, records;
    }
    var prefixBytes := ReadRange(file, Range(ranges[4].start, ranges[4].start + 40));
    var prefix :- ParsePrefix(prefixBytes);
    if prefix.keyId != keyId {
      return Err(SignatureFailure), manifest, records;
    }
    var contents :- OpenSealed(p, contentKey, file, ranges);
    SealedIsNumbered(p, file.bytes, ranges, contentKey, contents.0, contents.1);
    var view := View(p, file.bytes, Keys(contentKey, headerBytes), contents.0, contents.1, ranges[3].start);
    var _ :- ValidateDataAndManifest(view, file, ranges[3]);
    var _ :- ValidateSourceInventory(p, rules, entries, contents.0);
    return Ok(|contents.0.files|), contents.0, contents.1;
  }

  datatype PendingVerification = PendingVerification(signingDigest: string, fileCount: nat, sizeBytes: nat)

  /** The sections of a pending file, whose signature is still missing. */
  ghost function PendingRangesOf(bytes: seq<Byte>): (ranges: seq<Range>)
    requires SectionRangesOf(Complete(bytes, true), |bytes| + 64).Ok?
    ensures Inside(ranges, |bytes|) && ranges[3].start + 8 <= ranges[3].end && ranges[4].start + 40 == |bytes|
  {
    var full := Complete(bytes, true);
    AcceptedIsWellLaid(full, |full|);
    LaidEnd(SectionRangesOf(full, |full|).value, |full|);
    assert Minimum(3) == 8;
    SectionRangesOf(full, |full|).value
  }

  ghost predicate VerifiesPending(p: Platform, bytes: seq<Byte>, rules: Rules, entries: seq<Entry>, metadata: seq<Byte>,
                                  keyId: seq<Byte>, contentKey: seq<Byte>, manifest: Manifest, records: seq<IndexRecord>) {
    && ParseStructure(p.headers, Complete(bytes, true)).Ok?
    && |Complete(bytes, true)| == |bytes| + 64
    && Verifies(p, bytes, PendingRangesOf(bytes), rules, entries, metadata, keyId, contentKey, manifest, records)
  }

  method DigestWhole(p: Platform, file: InputFile) returns (digest: string)
    modifies file
    ensures digest == Digest(p, file.bytes)
  {
    assert file.bytes[..|file.bytes|] == file.bytes;
    var hash := DigestPrefix(p, file, |file.bytes|);
    match hash {
      case Ok(value) => digest := LowercaseHex(value);
      case Err(_) => digest := "";
    }
  }

  /** Verifies exactly the pending files whose content agrees with the sources. */
  method VerifyPending(p: Platform, file: InputFile, rules: Rules, entries: seq<Entry>, metadata: seq<Byte>,
                       keyId: seq<Byte>, contentKey: seq<Byte>)
    returns (r: Result<PendingVerification>, ghost manifest: Manifest, ghost records: seq<IndexRecord>)
    requires Lawful(p) && rules.tables == p.tables
    modifies file
    ensures r.Ok? ==> VerifiesPending(p, file.bytes, rules, entries, metadata, keyId, contentKey, manifest, records)
    ensures forall m, rs :: VerifiesPending(p, file.bytes, rules, entries, metadata, keyId, contentKey, m, rs) ==>
      r == Ok(PendingVerification(Digest(p, file.bytes), |m.files|, |file.bytes| + 64))
  {
    manifest, records := Manifest("", []), [];
    var layout :- OpenLayout(p, file, true);
    assert layout.0 == PendingRangesOf(file.bytes);
    var count, m, rs := VerifyProtectedContents(p, file, layout.0, rules, entries, metadata, keyId, contentKey);
    manifest, records := m, rs;
    if count.Err? {
      return Err(count.error), m, rs;
    }
    if layout.1 < 64 {
      return Err(OutOfBounds), m, rs;
    }
    var digest := DigestWhole(p, file);
    return Ok(PendingVerification(digest, count.value, layout.1)), m, rs;
  }
}
