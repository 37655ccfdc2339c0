/** The lazy reader: byte ranges of protected files, decrypted chunk by chunk.
    Models ProtectedArchiveReader of crates/solarch-core/src/archive.rs. */
module Readers {
  import opened Outcomes
  import opened Results
  import opened Bytes
  import opened Streams
  import opened Manifests
  import opened Container
  import opened ProductionCrypto
  import opened Platforms
  import opened Chunks
  import opened Verification

  const MAX_PROTECTED_READ_BYTES: nat := 4_194_304

  // ----- manifest against index -----

  /** Length of chunk `k` of a file of this size. */
  function ExpectedLength(size: nat, k: nat): nat {
    if size <= k * CHUNK_SIZE then 0 else Lesser(size - k * CHUNK_SIZE, CHUNK_SIZE)
  }

  ghost predicate ChunkCovered(file: ManifestFile, first: nat, records: seq<IndexRecord>, k: nat)
    requires k < |file.chunks|
  {
    && file.chunks[k] == first + k < |records|
    && records[first + k].plaintextLength == ExpectedLength(file.sizeBytes, k)
  }

  /** The chunks of a file are numbered from `first` on and the recorded lengths cut the
      file into full chunks and a rest. */
  ghost predicate FileCovered(file: ManifestFile, first: nat, records: seq<IndexRecord>) {
    && file.sizeBytes <= |file.chunks| * CHUNK_SIZE
    && forall k :: 0 <= k < |file.chunks| ==> ChunkCovered(file, first, records, k)
  }

  ghost predicate CoveredAt(files: seq<ManifestFile>, records: seq<IndexRecord>, i: nat)
    requires i < |files|
  {
    FileCovered(files[i], ChunkBase(files, i), records)
  }

  ghost predicate Covered(files: seq<ManifestFile>, records: seq<IndexRecord>) {
    && ChunkBase(files, |files|) == |records|
    && forall i {:trigger CoveredAt(files, records, i)} :: 0 <= i < |files| ==> CoveredAt(files, records, i)
  }

  method CheckFileRecords(file: ManifestFile, first: nat, records: seq<IndexRecord>) returns (r: Result<nat>)
    ensures r.Ok? <==> FileCovered(file, first, records)
    ensures r.Ok? ==> r.value == first + |file.chunks|
  {
    var remaining, recordIndex, k := file.sizeBytes, first, 0;
    while k < |file.chunks|
      invariant 0 <= k <= |file.chunks| && recordIndex == first + k
      invariant remaining == if file.sizeBytes <= k * CHUNK_SIZE then 0 else file.sizeBytes - k * CHUNK_SIZE
      invariant forall j :: 0 <= j < k ==> ChunkCovered(file, first, records, j)
    {
      var index := file.chunks[k];
      if index != recordIndex || index >= |records| {
        assert !ChunkCovered(file, first, records, k);
        return Err(InvalidChunkMetadata);
      }
      var expected := Lesser(remaining, CHUNK_SIZE);
      if records[index].plaintextLength != expected {
        assert !ChunkCovered(file, first, records, k);
        return Err(InvalidChunkMetadata);
      }
      remaining := remaining - expected;
      recordIndex, k := recordIndex + 1, k + 1;
    }
    if remaining != 0 {
      return Err(InvalidChunkMetadata);
    }
    return Ok(recordIndex);
  }

  /** Accepts exactly the manifests whose files the records cut up without a gap. */
  method ValidateManifestRecordLengths(manifest: Manifest, records: seq<IndexRecord>) returns (r: Result<()>)
    ensures r.Ok? <==> Covered(manifest.files, records)
  {
    var recordIndex, i := 0, 0;
    while i < |manifest.files|
      invariant 0 <= i <= |manifest.files| && recordIndex == ChunkBase(manifest.files, i)
      invariant forall j {:trigger CoveredAt(manifest.files, records, j)} :: 0 <= j < i ==> CoveredAt(manifest.files, records, j)
    {
      assert CoveredAt(manifest.files, records, i) <==> FileCovered(manifest.files[i], recordIndex, records);
      recordIndex :- CheckFileRecords(manifest.files[i], recordIndex, records);
      i := i + 1;
    }
    if recordIndex != |records| {
      return Err(InvalidChunkMetadata);
    }
    return Ok(());
  }

  // ----- the sealed sections -----

  ghost predicate HoldsIndex(p: Platform, keys: Keys, section: seq<Byte>, records: seq<IndexRecord>) {
    ValidRecords(records) && DecryptIndex(p, keys, section) == Ok(Idx1Bytes(records))
  }

  /** Opens exactly the sections that hold some valid records, and returns those. */
  method OpenIndex(p: Platform, keys: Keys, section: seq<Byte>) returns (r: Result<seq<IndexRecord>>)
    ensures r.Ok? ==> HoldsIndex(p, keys, section, r.value)
    ensures forall records :: HoldsIndex(p, keys, section, records) ==> r == Ok(records)
  {
    var plaintext :- DecryptIndex(p, keys, section);
    r := DecodeIdx1(plaintext);
    forall records | HoldsIndex(p, keys, section, records) ensures r == Ok(records) {
      assert IsIdx1(plaintext);
      Idx1Injective(records, r.value);
    }
  }

  ghost predicate HoldsManifest(p: Platform, keys: Keys, section: seq<Byte>, archiveId: string, chunkCount: nat, m: Manifest) {
    && DecryptManifest(p, keys, section) == Ok(p.manifestJson(m))
    && p.manifestFrom(p.manifestJson(m)) == Some(m)
    && ValidManifest(p.tables, m, archiveId, chunkCount)
  }

  /** Opens exactly the sections that hold the canonical JSON of a valid manifest. */
  method OpenManifest(p: Platform, keys: Keys, section: seq<Byte>, archiveId: string, chunkCount: nat)
    returns (r: Result<Manifest>)
    requires Lawful(p)
    ensures r.Ok? ==> HoldsManifest(p, keys, section, archiveId, chunkCount, r.value)
    ensures forall m :: HoldsManifest(p, keys, section, archiveId, chunkCount, m) ==> r == Ok(m)
  {
    var plaintext :- DecryptManifest(p, keys, section);
    match p.manifestFrom(plaintext) {
      case None => return Err(InvalidManifest);
      case Some(m) =>
        if p.manifestJson(m) != plaintext {
          return Err(InvalidManifest);
        }
        var _ :- Validate(p.tables, m, archiveId, chunkCount);
        return Ok(m);
    }
  }

  // ----- what an archive protects -----

  function Part(bytes: seq<Byte>, range: Range): seq<Byte>
    requires range.start <= range.end <= |bytes|
  {
    bytes[range.start..range.end]
  }

  ghost predicate Inside(ranges: seq<Range>, total: nat) {
    |ranges| == 5 && forall i :: 0 <= i < 4 ==> ranges[i].start <= ranges[i].end <= total
  }

  /** The manifest and the records sealed in an archive. */
  ghost predicate Seals(p: Platform, contentKey: seq<Byte>, bytes: seq<Byte>, ranges: seq<Range>,
                        manifest: Manifest, records: seq<IndexRecord>)
    requires Inside(ranges, |bytes|)
  {
    var keys := Keys(contentKey, Part(bytes, ranges[0]));
    var header := ParseHeader(p.headers, Part(bytes, ranges[0]));
    && header.Ok?
    && HoldsIndex(p, keys, Part(bytes, ranges[2]), records)
    && HoldsManifest(p, keys, Part(bytes, ranges[1]), header.value.archiveId, |records|, manifest)
  }

  /** They also agree with each other and with the frame of the data section. */
  ghost predicate Protects(p: Platform, contentKey: seq<Byte>, bytes: seq<Byte>, ranges: seq<Range>,
                           manifest: Manifest, records: seq<IndexRecord>)
    requires Inside(ranges, |bytes|)
  {
    && Seals(p, contentKey, bytes, ranges, manifest, records)
    && Covered(manifest.files, records)
    && Framed(Part(bytes, ranges[3]), records)
  }

  ghost predicate Framed(data: seq<Byte>, records: seq<IndexRecord>) {
    && 8 <= |data| == DataOffset(records, |records|) <= MAX_ENCRYPTED_DATA_BYTES
    && data[..8] == Dat1Prefix(|records|)
  }

  /** Reads the header, the index and the manifest. */
  method OpenSealed(p: Platform, contentKey: seq<Byte>, file: InputFile, ranges: seq<Range>)
    returns (r: Result<(Manifest, seq<IndexRecord>)>)
    requires Lawful(p) && Inside(ranges, |file.bytes|)
    modifies file
    ensures r.Ok? ==> Seals(p, contentKey, file.bytes, ranges, r.value.0, r.value.1)
    ensures forall m, rs :: Seals(p, contentKey, file.bytes, ranges, m, rs) ==> r == Ok((m, rs))
  {
    var headerBytes := ReadRange(file, ranges[0]);
    var header :- ParseHeader(p.headers, headerBytes);
    var keys := Keys(contentKey, headerBytes);
    var index := ReadRange(file, ranges[2]);
    var records :- OpenIndex(p, keys, index);
    var sealed := ReadRange(file, ranges[1]);
    var manifest :- OpenManifest(p, keys, sealed, header.archiveId, |records|);
    return Ok((manifest, records));
  }

  /** Reads and authenticates everything but the chunks. */
  method OpenProtected(p: Platform, contentKey: seq<Byte>, file: InputFile, ranges: seq<Range>)
    returns (r: Result<(Manifest, seq<IndexRecord>)>)
    requires Lawful(p) && Inside(ranges, |file.bytes|) && ranges[3].start + 8 <= ranges[3].end
    modifies file
    ensures r.Ok? ==> Protects(p, contentKey, file.bytes, ranges, r.value.0, r.value.1)
    ensures forall m, rs :: Protects(p, contentKey, file.bytes, ranges, m, rs) ==> r == Ok((m, rs))
  {
    var contents :- OpenSealed(p, contentKey, file, ranges);
    var _ :- ValidateManifestRecordLengths(contents.0, contents.1);
    var data := ranges[3];
    var prefix := ReadRange(file, Range(data.start, data.start + 8));
    PartPrefix(file.bytes, data);
    var _ :- ValidateDat1Layout(prefix, data.end - data.start, contents.1);
    return Ok(contents);
  }

  lemma PartPrefix(bytes: seq<Byte>, range: Range)
    requires range.start + 8 <= range.end <= |bytes|
    ensures bytes[range.start..range.start + 8] == Part(bytes, range)[..8]
  {
    Sequences.SliceOfSlice(bytes, range.start, range.end, 0, 8);
    assert Part(bytes, range)[0..8] == Part(bytes, range)[..8];
  }

  // ----- reading -----

  /** The arithmetic of a range read: which part of chunk `k` lies in [offset, end). */
  function PartStart(k: nat, offset: nat): nat {
    if offset < k * CHUNK_SIZE then 0 else offset - k * CHUNK_SIZE
  }

  function PartEnd(k: nat, end: nat, length: nat): nat {
    if k * CHUNK_SIZE + length < end then length else if end < k * CHUNK_SIZE then 0 else end - k * CHUNK_SIZE
  }

  predicate Touches(k: nat, offset: nat, end: nat) {
    k * CHUNK_SIZE < end && offset < (k + 1) * CHUNK_SIZE
  }

  /** What the manifest says about ids and chunk counts. */
  ghost predicate Numbered(files: seq<ManifestFile>) {
    forall i :: 0 <= i < |files| ==> files[i].fileId == FileId(i) && |files[i].chunks| == ChunkCount(files[i].sizeBytes)
  }

  /** An archive whose protected sections have been read: the manifest, the records and
      where the data section starts. */
  datatype View = View(platform: Platform, bytes: seq<Byte>, keys: Keys, manifest: Manifest,
                       records: seq<IndexRecord>, dataStart: nat) {
    /** What opening establishes. */
    ghost predicate Valid() {
      && Lawful(platform) && Numbered(manifest.files) && ValidRecords(records) && Covered(manifest.files, records)
      && dataStart + DataOffset(records, |records|) <= |bytes|
      && |manifest.files| <= MAX_FILES
    }

    /** The plaintext of a chunk, if its ciphertext authenticates. */
    ghost function Chunk(id: nat): (r: Result<seq<Byte>>)
      requires Valid() && id < |records|
      ensures r.Ok? ==> |r.value| == records[id].plaintextLength
      ensures r.Err? ==> r.error == AuthenticationFailed
    {
      ChunkInside(id);
      var start := dataStart + records[id].offset;
      ChunkOutcome(platform, keys, id, records[id].plaintextLength, bytes[start..start + records[id].ciphertextLength]);
      DecryptChunk(platform, keys, id, records[id].plaintextLength, bytes[start..start + records[id].ciphertextLength])
    }

    lemma ChunkInside(id: nat)
      requires Valid() && id < |records|
      ensures ValidRecord(records, id) && id < MAX_CHUNK_COUNT
      ensures dataStart + records[id].offset + records[id].ciphertextLength <= |bytes|
    {
      assert ValidRecord(records, id);
      DataOffsetMonotone(records, id + 1, |records|);
    }

    /** The chunk number behind file `n`, place `k`, and the length recorded for it. */
    lemma ChunkNumber(n: nat, k: nat)
      requires Valid() && n < |manifest.files| && k < |manifest.files[n].chunks|
      ensures manifest.files[n].chunks[k] < |records|
      ensures records[manifest.files[n].chunks[k]].plaintextLength == ExpectedLength(manifest.files[n].sizeBytes, k)
    {
      assert CoveredAt(manifest.files, records, n);
      assert ChunkCovered(manifest.files[n], ChunkBase(manifest.files, n), records, k);
    }

    ghost function FileChunk(n: nat, k: nat): (r: Result<seq<Byte>>)
      requires Valid() && n < |manifest.files| && k < |manifest.files[n].chunks|
      ensures r.Ok? ==> |r.value| == ExpectedLength(manifest.files[n].sizeBytes, k)
      ensures r.Err? ==> r.error == AuthenticationFailed
    {
      ChunkNumber(n, k);
      Chunk(manifest.files[n].chunks[k])
    }

    /** Every chunk that meets [offset, end) authenticates. */
    ghost predicate Readable(n: nat, offset: nat, end: nat)
      requires Valid() && n < |manifest.files|
    {
      forall k :: 0 <= k < |manifest.files[n].chunks| && Touches(k, offset, end) ==> FileChunk(n, k).Ok?
    }

    /** Byte `at` of file `n` is byte `at % CHUNK_SIZE` of its chunk `at / CHUNK_SIZE`. */
    ghost predicate Shows(n: nat, at: nat, byte: Byte)
      requires Valid() && n < |manifest.files|
    {
      var k, within := at / CHUNK_SIZE, at % CHUNK_SIZE;
      && k < |manifest.files[n].chunks| && FileChunk(n, k).Ok?
      && within < |FileChunk(n, k).value| && FileChunk(n, k).value[within] == byte
    }

    /** `output` is the content of file `n` from `offset` on. */
    ghost predicate Content(n: nat, offset: nat, output: seq<Byte>)
      requires Valid() && n < |manifest.files|
    {
      forall i :: 0 <= i < |output| ==> Shows(n, offset + i, output[i])
    }

    /** The whole content of file `n`. */
    ghost predicate FileHolds(n: nat, text: seq<Byte>)
      requires Valid() && n < |manifest.files|
    {
      |text| == manifest.files[n].sizeBytes && Content(n, 0, text)
    }

    lemma OneContent(n: nat, a: seq<Byte>, b: seq<Byte>)
      requires Valid() && n < |manifest.files| && FileHolds(n, a) && FileHolds(n, b)
      ensures a == b
    {
      forall i | 0 <= i < |a| ensures a[i] == b[i] {
        assert Shows(n, 0 + i, a[i]) && Shows(n, 0 + i, b[i]);
      }
    }

    lemma ReadableJoin(n: nat, middle: nat, end: nat)
      requires Valid() && n < |manifest.files| && middle <= end
      requires Readable(n, 0, middle) && Readable(n, middle, end)
      ensures Readable(n, 0, end)
    {
      forall k | 0 <= k < |manifest.files[n].chunks| && Touches(k, 0, end) ensures FileChunk(n, k).Ok? {
        assert Touches(k, 0, middle) || Touches(k, middle, end);
      }
    }

    lemma ReadableWithin(n: nat, offset: nat, end: nat, size: nat)
      requires Valid() && n < |manifest.files| && end <= size && Readable(n, 0, size)
      ensures Readable(n, offset, end)
    {
    }

    lemma ContentJoin(n: nat, output: seq<Byte>, more: seq<Byte>)
      requires Valid() && n < |manifest.files| && Content(n, 0, output) && Content(n, |output|, more)
      ensures Content(n, 0, output + more)
    {
      forall i | 0 <= i < |output + more| ensures Shows(n, 0 + i, (output + more)[i]) {
        if i < |output| {
          assert Shows(n, 0 + i, output[i]);
        } else {
          assert Shows(n, |output| + (i - |output|), more[i - |output|]);
        }
      }
    }

    /** What reading [offset, offset + length) of file `n` may return. */
    ghost predicate RangeOutcome(n: nat, offset: nat, length: nat, r: Result<seq<Byte>>)
      requires Valid() && n < |manifest.files|
    {
      if offset + length > manifest.files[n].sizeBytes then r == Err(OutOfBounds)
      else if length > 0 && !Readable(n, offset, offset + length) then r == Err(AuthenticationFailed)
      else r.Ok? && |r.value| == length && Content(n, offset, r.value)
    }

    /** Appending the part of chunk `k` continues the content. */
    lemma ContentAppend(n: nat, k: nat, offset: nat, end: nat, output: seq<Byte>, part: seq<Byte>)
      requires Valid() && n < |manifest.files| && offset < end && Touches(k, offset, end)
      requires Content(n, offset, output)
      requires offset + |output| == k * CHUNK_SIZE + PartStart(k, offset)
      requires k < |manifest.files[n].chunks| && FileChunk(n, k).Ok?
      requires PartStart(k, offset) <= PartEnd(k, end, CHUNK_SIZE) <= |FileChunk(n, k).value|
      requires part == FileChunk(n, k).value[PartStart(k, offset)..PartEnd(k, end, CHUNK_SIZE)]
      ensures Content(n, offset, output + part)
    {
      forall i | 0 <= i < |output + part| ensures Shows(n, offset + i, (output + part)[i]) {
        if i < |output| {
          assert Shows(n, offset + i, output[i]);
        } else {
          var within := PartStart(k, offset) + i - |output|;
          ChunkOfByte(k, within);
        }
      }
    }
  }

  class ProtectedArchiveReader {
    const platform: Platform
    const file: InputFile
    const keys: Keys
    const manifest: Manifest
    const records: seq<IndexRecord>
    const dataStart: nat

    constructor (p: Platform, f: InputFile, k: Keys, m: Manifest, rs: seq<IndexRecord>, start: nat)
      ensures platform == p && file == f && keys == k && manifest == m && records == rs && dataStart == start
    {
      platform, file, keys, manifest, records, dataStart := p, f, k, m, rs, start;
    }

    ghost function Contents(): View {
      View(platform, file.bytes, keys, manifest, records, dataStart)
    }

    ghost predicate Valid() {
      Contents().Valid()
    }

    method FindFile(fileId: string) returns (found: Option<nat>)
      requires Valid()
      ensures found.Some? ==> found.value < |manifest.files| && fileId == FileId(found.value)
      ensures found.None? ==> forall n :: 0 <= n < |manifest.files| ==> fileId != FileId(n)
    {
      var i := 0;
      while i < |manifest.files|
        invariant 0 <= i <= |manifest.files|
        invariant forall n :: 0 <= n < i ==> fileId != manifest.files[n].fileId
      {
        if manifest.files[i].fileId == fileId {
          OnlyFile(i);
          return Some(i);
        }
        i := i + 1;
      }
      forall n | 0 <= n < |manifest.files| ensures fileId != FileId(n) {
        OnlyFile(n);
      }
      return None;
    }

    /** The part of chunk `k` of file `n` that lies in [offset, end). */
    method ReadPart(n: nat, k: nat, offset: nat, end: nat) returns (r: Result<seq<Byte>>)
      requires Valid() && n < |manifest.files|
      requires offset < end <= manifest.files[n].sizeBytes && Touches(k, offset, end)
      modifies file
      ensures k < |manifest.files[n].chunks|
      ensures match Contents().FileChunk(n, k)
              case Err(e) => r == Err(e)
              case Ok(plaintext) =>
                && PartStart(k, offset) <= PartEnd(k, end, CHUNK_SIZE) <= |plaintext|
                && r == Ok(plaintext[PartStart(k, offset)..PartEnd(k, end, CHUNK_SIZE)])
    {
      var manifestFile := manifest.files[n];
      if k >= |manifestFile.chunks| {
        return Err(InvalidChunkMetadata);
      }
      Contents().ChunkNumber(n, k);
      var chunkId := manifestFile.chunks[k];
      if chunkId >= |records| {
        return Err(InvalidChunkMetadata);
      }
      var record := records[chunkId];
      Contents().ChunkInside(chunkId);
      var ciphertext := ReadRange(file, Range(dataStart + record.offset, dataStart + record.offset + record.ciphertextLength));
      var plaintext :- DecryptChunk(platform, keys, chunkId, record.plaintextLength, ciphertext);
      assert Contents().FileChunk(n, k) == Ok(plaintext);
      var start, stop := PartStart(k, offset), PartEnd(k, end, record.plaintextLength);
      if start > stop || stop > |plaintext| {
        return Err(OutOfBounds);
      }
      return Ok(plaintext[start..stop]);
    }

    /** Reads a range of one file. Once the request itself is in order, an
        unauthentic chunk is all that can stop it, and what it returns is the content. */
    method ReadFileRange(fileId: string, offset: nat, length: nat) returns (r: Result<seq<Byte>>)
      requires Valid()
      modifies file
      ensures length > MAX_PROTECTED_READ_BYTES ==> r == Err(LimitExceeded)
      ensures length <= MAX_PROTECTED_READ_BYTES && (forall n :: 0 <= n < |manifest.files| ==> fileId != FileId(n)) ==>
        r == Err(InvalidManifest)
      ensures length <= MAX_PROTECTED_READ_BYTES ==> forall n :: 0 <= n < |manifest.files| && fileId == FileId(n) ==>
        Contents().RangeOutcome(n, offset, length, r)
    {
      if length > MAX_PROTECTED_READ_BYTES {
        return Err(LimitExceeded);
      }
      var found := FindFile(fileId);
      if found == None {
        return Err(InvalidManifest);
      }
      var n, end := found.value, offset + length;
      forall m | 0 <= m < |manifest.files| && fileId == FileId(m) ensures m == n {
        FileIdInjective(m, n);
      }
      if end > manifest.files[n].sizeBytes {
        return Err(OutOfBounds);
      }
      if length == 0 {
        return Ok([]);
      }
      r := ReadParts(n, offset, end);
    }

    method ReadParts(n: nat, offset: nat, end: nat) returns (r: Result<seq<Byte>>)
      requires Valid() && n < |manifest.files| && offset < end <= manifest.files[n].sizeBytes
      modifies file
      ensures r.Ok? <==> Contents().Readable(n, offset, end)
      ensures r.Ok? ==> |r.value| == end - offset && Contents().Content(n, offset, r.value)
      ensures r.Err? ==> r.error == AuthenticationFailed
    {
      var output, k, last := [], offset / CHUNK_SIZE, (end - 1) / CHUNK_SIZE;
      ghost var first := k;
      while k <= last
        invariant first <= k <= last + 1
        invariant |output| == if k == first then 0 else Lesser(end, k * CHUNK_SIZE) - offset
        invariant Contents().Content(n, offset, output)
        invariant forall j :: first <= j < k && j < |manifest.files[n].chunks| ==> Contents().FileChunk(n, j).Ok?
      {
        var part := ReadPart(n, k, offset, end);
        if part.Err? {
          return part;
        }
        Contents().ContentAppend(n, k, offset, end, output, part.value);
        output := output + part.value;
        k := k + 1;
      }
      if |output| != end - offset {
        return Err(IntegrityMismatch);
      }
      return Ok(output);
    }

    /** Concatenates the ranges of file `n`; fails only on an unauthentic chunk. */
    method ReadAll(n: nat) returns (r: Result<seq<Byte>>)
      requires Valid() && n < |manifest.files|
      modifies file
      ensures r.Ok? <==> Contents().Readable(n, 0, manifest.files[n].sizeBytes)
      ensures r.Ok? ==> Contents().FileHolds(n, r.value)
      ensures r.Err? ==> r.error == AuthenticationFailed
    {
      var size, output, offset := manifest.files[n].sizeBytes, [], 0;
      while offset < size
        invariant offset == |output| <= size
        invariant Contents().Content(n, 0, output) && Contents().Readable(n, 0, offset)
      {
        var length := Lesser(size - offset, MAX_PROTECTED_READ_BYTES);
        if Contents().Readable(n, 0, size) { Contents().ReadableWithin(n, offset, offset + length, size); }
        OnlyFile(n);
        var range := ReadFileRange(manifest.files[n].fileId, offset, length);
        if range.Err? {
          return range;
        }
        Contents().ReadableJoin(n, offset, offset + length);
        Contents().ContentJoin(n, output, range.value);
        output := output + range.value;
        offset := offset + length;
      }
      return Ok(output);
    }

    lemma OnlyFile(n: nat)
      requires Valid() && n < |manifest.files|
      ensures manifest.files[n].fileId == FileId(n)
    {
    }

    /** Reassembles a whole file. Beyond the request itself, only an unauthentic chunk or
        a wrong hash of the complete content can stop it. */
    method ReadCompleteFileBounded(fileId: string, maximum: nat) returns (r: Result<seq<Byte>>)
      requires Valid()
      modifies file
      ensures (forall n :: 0 <= n < |manifest.files| ==> fileId != FileId(n)) ==> r == Err(InvalidManifest)
      ensures forall n :: 0 <= n < |manifest.files| && fileId == FileId(n) ==>
        if manifest.files[n].sizeBytes > maximum then r == Err(LimitExceeded)
        else if !Contents().Readable(n, 0, manifest.files[n].sizeBytes) then r == Err(AuthenticationFailed)
        else exists text ::
          Contents().FileHolds(n, text) && r == if Digest(platform, text) == manifest.files[n].hash then Ok(text) else Err(IntegrityMismatch)
    {
      var found := FindFile(fileId);
      if found == None {
        return Err(InvalidManifest);
      }
      var n := found.value;
      forall m | 0 <= m < |manifest.files| && fileId == FileId(m) ensures m == n {
        FileIdInjective(m, n);
      }
      if manifest.files[n].sizeBytes > maximum {
        return Err(LimitExceeded);
      }
      var output :- ReadAll(n);
      if |output| != manifest.files[n].sizeBytes || Digest(platform, output) != manifest.files[n].hash {
        return Err(IntegrityMismatch);
      }
      return Ok(output);
    }
  }

  lemma ChunkOfByte(k: nat, within: nat)
    requires within < CHUNK_SIZE
    ensures (k * CHUNK_SIZE + within) / CHUNK_SIZE == k && (k * CHUNK_SIZE + within) % CHUNK_SIZE == within
  {
  }

  // ----- opening -----

  ghost function RangesOf(bytes: seq<Byte>): (ranges: seq<Range>)
    requires SectionRangesOf(bytes, |bytes|).Ok?
    ensures WellLaid(ranges, |bytes|)
    ensures Inside(ranges, |bytes|)
  {
    AcceptedIsWellLaid(bytes, |bytes|);
    LaidEnd(SectionRangesOf(bytes, |bytes|).value, |bytes|);
    SectionRangesOf(bytes, |bytes|).value
  }

  /** The file is a signed archive with this fingerprint that protects this content. */
  ghost predicate Opens(p: Platform, bytes: seq<Byte>, keyId: seq<Byte>, publicKey: seq<Byte>, fingerprint: string,
                        contentKey: seq<Byte>, manifest: Manifest, records: seq<IndexRecord>) {
    && ParseStructure(p.headers, bytes).Ok? && SignedBy(p, bytes, keyId, publicKey)
    && Digest(p, bytes) == fingerprint
    && Protects(p, contentKey, bytes, RangesOf(bytes), manifest, records)
  }

  ghost function ViewIn(p: Platform, bytes: seq<Byte>, ranges: seq<Range>, contentKey: seq<Byte>,
                        manifest: Manifest, records: seq<IndexRecord>): View
    requires |ranges| == 5 && ranges[0].start <= ranges[0].end <= |bytes|
  {
    View(p, bytes, Keys(contentKey, Part(bytes, ranges[0])), manifest, records, ranges[3].start)
  }

  /** Whatever protects its content consistently can be read without a metadata, bounds
      or length error. */
  lemma ProtectsIsValid(p: Platform, bytes: seq<Byte>, ranges: seq<Range>, contentKey: seq<Byte>,
                        manifest: Manifest, records: seq<IndexRecord>)
    requires Lawful(p) && Inside(ranges, |bytes|)
    requires Protects(p, contentKey, bytes, ranges, manifest, records)
    ensures ViewIn(p, bytes, ranges, contentKey, manifest, records).Valid()
  {
    var files := manifest.files;
    forall i | 0 <= i < |files| ensures files[i].fileId == FileId(i) && |files[i].chunks| == ChunkCount(files[i].sizeBytes) {
      assert EntryFits(p.tables, files, i);
    }
  }

  /** Opens exactly the archives that `Opens` describes, and holds what they protect. */
  method OpenReader(p: Platform, file: InputFile, expectedKeyId: seq<Byte>, publicKey: seq<Byte>,
                    expectedFingerprint: string, contentKey: seq<Byte>)
    returns (r: Result<ProtectedArchiveReader>)
    requires Lawful(p)
    modifies file
    ensures r.Ok? ==>
      var reader := r.value;
      && fresh(reader) && reader.file == file && reader.Valid()
      && Opens(p, file.bytes, expectedKeyId, publicKey, expectedFingerprint, contentKey, reader.manifest, reader.records)
      && reader.Contents() == ViewIn(p, file.bytes, RangesOf(file.bytes), contentKey, reader.manifest, reader.records)
    ensures r.Ok? ==> Spells(expectedFingerprint, p.sha256(file.bytes))
    ensures forall m, rs :: Opens(p, file.bytes, expectedKeyId, publicKey, expectedFingerprint, contentKey, m, rs) ==>
      r.Ok? && r.value.manifest == m && r.value.records == rs
  {
    var layout :- OpenLayout(p, file, false);
    AcceptedFits(file.bytes, layout.1);
    var ranges := layout.0;
    var verification :- VerifyFinalizedOpen(p, file, ranges, layout.1, expectedKeyId, publicKey);
    if verification.archiveFingerprint != expectedFingerprint {
      return Err(IntegrityMismatch);
    }
    assert ranges == RangesOf(file.bytes) && Minimum(3) == 8;
    DigestSpells(p, file.bytes, expectedFingerprint);
    var contents :- OpenProtected(p, contentKey, file, ranges);
    ProtectsIsValid(p, file.bytes, ranges, contentKey, contents.0, contents.1);
    var headerBytes := ReadRange(file, ranges[0]);
    var reader := new ProtectedArchiveReader(p, file, Keys(contentKey, headerBytes), contents.0, contents.1, ranges[3].start);
    return Ok(reader);
  }
}
