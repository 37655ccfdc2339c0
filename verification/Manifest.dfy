/** The manifest of an archive and its validation.
    Models crates/solarch-core/src/manifest.rs. */
module Manifests {
  import opened Outcomes
  import opened Results
  import opened Bytes
  import opened Paths

  const MAX_FILES: nat := 10_000
  const MAX_TOTAL_SIZE_BYTES: nat := 536_870_912
  const MAX_FILE_SIZE_BYTES: nat := 536_870_912
  const MAX_CHUNKS: nat := 16_384
  const CHUNK_SIZE: nat := 1_048_576

  datatype ViewerPolicy = ViewerPolicy(internalViewerOnly: bool, exportAllowed: bool, watermarkRequired: bool)

  const DEFAULT_POLICY := ViewerPolicy(true, false, true)

  datatype ManifestFile = ManifestFile(
    fileId: string,
    path: string,
    displayName: string,
    mimeType: Mime,
    sizeBytes: nat,
    hash: string,
    chunks: seq<nat>,
    viewerPolicy: ViewerPolicy)

  datatype Manifest = Manifest(archiveId: string, files: seq<ManifestFile>)

  predicate ValidId(value: string) {
    0 < |value| <= 128
    && forall c :: c in value ==> '0' <= c <= '9' || 'a' <= c <= 'z' || 'A' <= c <= 'Z' || c == '_' || c == '-'
  }

  predicate ValidHash(value: string) {
    |value| == 64 && forall c :: c in value ==> '0' <= c <= '9' || 'a' <= c <= 'f'
  }

  function LowercaseHex(bytes: seq<Byte>): (hex: string)
    ensures |hex| == 2 * |bytes|
    ensures forall c :: c in hex ==> '0' <= c <= '9' || 'a' <= c <= 'f'
  {
    if bytes == [] then "" else [HexDigit(bytes[0] / 16), HexDigit(bytes[0] % 16)] + LowercaseHex(bytes[1..])
  }

  /** Two lower-case hexadecimal digits for every byte, the higher one first. */
  ghost predicate Spells(hex: string, bytes: seq<Byte>) {
    && |hex| == 2 * |bytes|
    && (forall c :: c in hex ==> '0' <= c <= '9' || 'a' <= c <= 'f')
    && forall i :: 0 <= i < |bytes| ==> 16 * HexValueOf(hex[2 * i]) + HexValueOf(hex[2 * i + 1]) == bytes[i]
  }

  lemma {:induction false} HexReadsBack(bytes: seq<Byte>)
    ensures Spells(LowercaseHex(bytes), bytes)
  {
    if bytes != [] {
      var rest, hex := LowercaseHex(bytes[1..]), LowercaseHex(bytes);
      HexReadsBack(bytes[1..]);
      forall i | 0 <= i < |bytes| ensures 16 * HexValueOf(hex[2 * i]) + HexValueOf(hex[2 * i + 1]) == bytes[i] {
        if i > 0 {
          assert hex[2 * i] == rest[2 * (i - 1)] && hex[2 * i + 1] == rest[2 * (i - 1) + 1];
          assert bytes[1..][i - 1] == bytes[i];
        }
      }
    }
  }

  lemma SameDigits(c: char, d: char, e: char, f: char)
    requires forall x :: x in [c, d, e, f] ==> '0' <= x <= '9' || 'a' <= x <= 'f'
    requires 16 * HexValueOf(c) + HexValueOf(d) == 16 * HexValueOf(e) + HexValueOf(f)
    ensures c == e && d == f
  {
    assert c in [c, d, e, f] && d in [c, d, e, f] && e in [c, d, e, f] && f in [c, d, e, f];
    assert 0 <= HexValueOf(c) < 16 && 0 <= HexValueOf(d) < 16 && 0 <= HexValueOf(e) < 16 && 0 <= HexValueOf(f) < 16;
  }

  lemma PairsMakeEqual(a: string, b: string, n: nat)
    requires |a| == 2 * n == |b|
    requires forall i :: 0 <= i < n ==> a[2 * i] == b[2 * i] && a[2 * i + 1] == b[2 * i + 1]
    ensures a == b
  {
    forall k | 0 <= k < |a| ensures a[k] == b[k] {
      var i := k / 2;
      assert k == 2 * i || k == 2 * i + 1;
    }
  }

  /** Every byte string has exactly one spelling. */
  lemma OneSpelling(hex: string, bytes: seq<Byte>)
    ensures Spells(hex, bytes) <==> hex == LowercaseHex(bytes)
  {
    HexReadsBack(bytes);
    if Spells(hex, bytes) {
      var own := LowercaseHex(bytes);
      forall i | 0 <= i < |bytes| ensures hex[2 * i] == own[2 * i] && hex[2 * i + 1] == own[2 * i + 1] {
        assert hex[2 * i] in hex && hex[2 * i + 1] in hex && own[2 * i] in own && own[2 * i + 1] in own;
        SameDigits(hex[2 * i], hex[2 * i + 1], own[2 * i], own[2 * i + 1]);
      }
      PairsMakeEqual(hex, own, |bytes|);
    }
  }

  /** Different byte strings have different spellings. */
  lemma HexInjective(a: seq<Byte>, b: seq<Byte>)
    requires LowercaseHex(a) == LowercaseHex(b)
    ensures a == b
  {
    HexReadsBack(a);
    HexReadsBack(b);
    var hex := LowercaseHex(a);
    forall i | 0 <= i < |a| ensures a[i] == b[i] {
      assert a[i] == 16 * HexValueOf(hex[2 * i]) + HexValueOf(hex[2 * i + 1]) == b[i];
    }
  }

  // ----- file ids -----

  function Pow10(n: nat): (p: nat)
    ensures p > 0
  {
    if n == 0 then 1 else 10 * Pow10(n - 1)
  }

  function Padded(n: nat, width: nat): (s: string)
    ensures |s| == width
  {
    if width == 0 then "" else Padded(n / 10, width - 1) + [('0' as int + n % 10) as char]
  }

  lemma {:induction false} PaddedInjective(n: nat, m: nat, width: nat)
    requires n < Pow10(width) && m < Pow10(width)
    requires Padded(n, width) == Padded(m, width)
    ensures n == m
  {
    if width > 0 {
      var a, b := Padded(n, width), Padded(m, width);
      assert a[width - 1] == b[width - 1] && a[..width - 1] == b[..width - 1];
      PaddedInjective(n / 10, m / 10, width - 1);
    }
  }

  /** The id of the file at an ordinal; archives hold far fewer than a million files. */
  function FileId(ordinal: nat): string {
    "file_" + Padded(ordinal, 6)
  }

  lemma FileIdInjective(i: nat, j: nat)
    requires i < 1_000_000 && j < 1_000_000
    requires FileId(i) == FileId(j)
    ensures i == j
  {
    assert FileId(i)[5..] == Padded(i, 6) && FileId(j)[5..] == Padded(j, 6);
    assert Pow10(2) == 100 && Pow10(4) == 10_000;
    PaddedInjective(i, j, 6);
  }

  // ----- what a valid manifest is -----

  function ChunkCount(size: nat): nat {
    (size + CHUNK_SIZE - 1) / CHUNK_SIZE
  }

  /** Number of chunks in the first `n` files. */
  function ChunkBase(files: seq<ManifestFile>, n: nat): nat
    requires n <= |files|
  {
    if n == 0 then 0 else ChunkBase(files, n - 1) + |files[n - 1].chunks|
  }

  /** Plaintext bytes in the first `n` files. */
  function SizeBefore(files: seq<ManifestFile>, n: nat): nat
    requires n <= |files|
  {
    if n == 0 then 0 else SizeBefore(files, n - 1) + files[n - 1].sizeBytes
  }

  function PathsBefore(files: seq<ManifestFile>, n: nat): seq<string>
    requires n <= |files|
  {
    if n == 0 then [] else PathsBefore(files, n - 1) + [files[n - 1].path]
  }

  /** What the type of the path field guarantees. */
  ghost predicate AllNormalized(t: Tables, files: seq<ManifestFile>) {
    forall i {:trigger Normalized(t, files[i].path)} :: 0 <= i < |files| ==> Normalized(t, files[i].path)
  }

  predicate ValidEntry(file: ManifestFile, ordinal: nat) {
    && file.fileId == FileId(ordinal)
    && file.displayName == LastComponent(file.path)
    && file.displayName != "" && Utf8Bytes(file.displayName) <= 255
    && ValidHash(file.hash)
    && MimeType(file.path) == Some(file.mimeType)
    && file.viewerPolicy == DEFAULT_POLICY
    && file.sizeBytes <= MAX_FILE_SIZE_BYTES
    && |file.chunks| == ChunkCount(file.sizeBytes)
  }

  /** The checks on file `n`: its own fields, its place in the path order, no
      collision with an earlier path, the running size, and chunk numbers that
      continue those of the files before it. */
  ghost predicate EntryFits(t: Tables, files: seq<ManifestFile>, n: nat)
    requires n < |files|
  {
    && ValidEntry(files[n], n)
    && (n > 0 ==> Less(files[n - 1].path, files[n].path))
    && (forall p {:trigger Conflict(t, p, files[n].path)} ::
          p in PathsBefore(files, n) ==> !Conflict(t, p, files[n].path))
    && SizeBefore(files, n + 1) <= MAX_TOTAL_SIZE_BYTES
    && (forall k :: 0 <= k < |files[n].chunks| ==> files[n].chunks[k] == ChunkBase(files, n) + k)
  }

  ghost predicate ValidManifest(t: Tables, m: Manifest, archiveId: string, chunkCount: nat) {
    && ValidId(m.archiveId) && m.archiveId == archiveId
    && 0 < |m.files| <= MAX_FILES
    && chunkCount <= MAX_CHUNKS
    && (forall n :: 0 <= n < |m.files| ==> EntryFits(t, m.files, n))
    && ChunkBase(m.files, |m.files|) == chunkCount
  }

  lemma {:induction false} ChunkBaseMonotone(files: seq<ManifestFile>, i: nat, n: nat)
    requires i <= n <= |files|
    ensures ChunkBase(files, i) <= ChunkBase(files, n)
  {
    if i < n { ChunkBaseMonotone(files, i, n - 1); }
  }

  method CheckChunks(chunks: seq<nat>, firstChunk: nat, chunkCount: nat) returns (r: Result<nat>)
    requires firstChunk <= chunkCount
    ensures r.Ok? <==> firstChunk + |chunks| <= chunkCount
                       && forall k :: 0 <= k < |chunks| ==> chunks[k] == firstChunk + k
    ensures r.Ok? ==> r.value == firstChunk + |chunks|
    ensures r.Err? ==> r.error == InvalidChunkMetadata
  {
    var nextChunk := firstChunk;
    var i := 0;
    while i < |chunks|
      invariant 0 <= i <= |chunks| && nextChunk == firstChunk + i <= chunkCount
      invariant forall k :: 0 <= k < i ==> chunks[k] == firstChunk + k
    {
      if chunks[i] != nextChunk || chunks[i] >= chunkCount {
        return Err(InvalidChunkMetadata);
      }
      nextChunk := nextChunk + 1;
      i := i + 1;
    }
    return Ok(nextChunk);
  }

  /** The checks on the fields of one file; `totalSize` already counts it. */
  method CheckFields(files: seq<ManifestFile>, ordinal: nat, totalSize: nat) returns (r: Result<()>)
    requires ordinal < |files| && totalSize == SizeBefore(files, ordinal + 1)
    ensures r.Ok? <==>
      && ValidEntry(files[ordinal], ordinal)
      && (ordinal > 0 ==> Less(files[ordinal - 1].path, files[ordinal].path))
      && totalSize <= MAX_TOTAL_SIZE_BYTES
  {
    var file := files[ordinal];
    if (ordinal > 0 && !Less(files[ordinal - 1].path, file.path))
       || file.fileId != FileId(ordinal)
       || file.displayName != LastComponent(file.path)
       || file.displayName == ""
       || Utf8Bytes(file.displayName) > 255
       || !ValidHash(file.hash)
       || MimeType(file.path) != Some(file.mimeType)
       || !file.viewerPolicy.internalViewerOnly
       || file.viewerPolicy.exportAllowed
       || !file.viewerPolicy.watermarkRequired
    {
      return Err(InvalidManifest);
    }
    if totalSize > MAX_TOTAL_SIZE_BYTES || file.sizeBytes > MAX_FILE_SIZE_BYTES || |file.chunks| > MAX_CHUNKS {
      return Err(LimitExceeded);
    }
    if (file.sizeBytes == 0) != (file.chunks == []) {
      return Err(InvalidChunkMetadata);
    }
    if |file.chunks| != ChunkCount(file.sizeBytes) {
      return Err(InvalidChunkMetadata);
    }
    return Ok(());
  }

  /** The index holds the paths of the first `n` files. */
  ghost predicate Indexed(stored: seq<string>, files: seq<ManifestFile>, n: nat)
    requires n <= |files|
  {
    forall p :: p in stored <==> p in PathsBefore(files, n)
  }

  lemma AddedElement(before: seq<string>, after: seq<string>, added: string)
    requires multiset(after) == multiset(before) + multiset{added}
    ensures forall p :: p in after <==> p in before || p == added
  {
    forall p ensures p in after <==> p in before || p == added {
      assert p in after <==> p in multiset(after);
    }
  }

  /** Adds the path of the next file to the index of the earlier ones. */
  method IndexPath(paths: PathSet, files: seq<ManifestFile>, ordinal: nat) returns (r: Result<()>)
    requires paths.Valid() && ordinal < |files| && AllNormalized(paths.tables, files)
    requires Indexed(paths.foldedOrder, files, ordinal)
    modifies paths
    ensures paths.Valid()
    ensures r.Ok? <==> forall p :: p in PathsBefore(files, ordinal) ==> !Conflict(paths.tables, p, files[ordinal].path)
    ensures r.Ok? ==> Indexed(paths.foldedOrder, files, ordinal + 1)
  {
    ghost var before := paths.foldedOrder;
    assert Normalized(paths.tables, files[ordinal].path);
    assert forall p :: Refused(paths.tables, p, files[ordinal].path, true) == Conflict(paths.tables, p, files[ordinal].path);
    var inserted :- paths.InsertFile(files[ordinal].path);
    AddedElement(before, paths.foldedOrder, inserted);
    return Ok(());
  }

  /** One turn of the validation loop: the next chunk number and the new running size. */
  method CheckEntry(paths: PathSet, files: seq<ManifestFile>, ordinal: nat, totalBefore: nat,
                    firstChunk: nat, chunkCount: nat)
    returns (r: Result<nat>, totalSize: nat)
    requires paths.Valid() && ordinal < |files| && AllNormalized(paths.tables, files)
    requires Indexed(paths.foldedOrder, files, ordinal)
    requires totalBefore == SizeBefore(files, ordinal)
    requires firstChunk == ChunkBase(files, ordinal) <= chunkCount
    modifies paths
    ensures paths.Valid() && totalSize == SizeBefore(files, ordinal + 1)
    ensures r.Ok? <==> EntryFits(paths.tables, files, ordinal) && ChunkBase(files, ordinal + 1) <= chunkCount
    ensures r.Ok? ==> r.value == ChunkBase(files, ordinal + 1)
    ensures r.Ok? ==> Indexed(paths.foldedOrder, files, ordinal + 1)
  {
    totalSize := totalBefore + files[ordinal].sizeBytes;
    var _ :- IndexPath(paths, files, ordinal);
    var _ :- CheckFields(files, ordinal, totalSize);
    var next :- CheckChunks(files[ordinal].chunks, firstChunk, chunkCount);
    r := Ok(next);
  }

  ghost predicate FitUpTo(t: Tables, files: seq<ManifestFile>, n: nat)
    requires n <= |files|
  {
    forall i :: 0 <= i < n ==> EntryFits(t, files, i)
  }

  method ValidateFiles(t: Tables, files: seq<ManifestFile>, chunkCount: nat) returns (r: Result<nat>)
    requires LawfulTables(t) && AllNormalized(t, files)
    ensures r.Ok? <==> FitUpTo(t, files, |files|) && ChunkBase(files, |files|) <= chunkCount
    ensures r.Ok? ==> r.value == ChunkBase(files, |files|)
  {
    var paths := new PathSet(t);
    var nextChunk, totalSize, ordinal := 0, 0, 0;
    while ordinal < |files|
      invariant 0 <= ordinal <= |files| && paths.Valid() && paths.tables == t && fresh(paths)
      invariant Indexed(paths.foldedOrder, files, ordinal)
      invariant FitUpTo(t, files, ordinal)
      invariant nextChunk == ChunkBase(files, ordinal) <= chunkCount
      invariant totalSize == SizeBefore(files, ordinal)
    {
      ChunkBaseMonotone(files, ordinal + 1, |files|);
      var checked, total := CheckEntry(paths, files, ordinal, totalSize, nextChunk, chunkCount);
      if checked.Err? {
        return Err(checked.error);
      }
      nextChunk, totalSize := checked.value, total;
      ordinal := ordinal + 1;
    }
    return Ok(nextChunk);
  }

  /** Accepts exactly the valid manifests. */
  method Validate(t: Tables, m: Manifest, expectedArchiveId: string, chunkCount: nat) returns (r: Result<()>)
    requires LawfulTables(t) && AllNormalized(t, m.files)
    ensures r.Ok? <==> ValidManifest(t, m, expectedArchiveId, chunkCount)
  {
    if !ValidId(m.archiveId) || m.archiveId != expectedArchiveId {
      return Err(InvalidManifest);
    }
    if m.files == [] || |m.files| > MAX_FILES || chunkCount > MAX_CHUNKS {
      return Err(LimitExceeded);
    }
    var nextChunk :- ValidateFiles(t, m.files, chunkCount);
    if nextChunk != chunkCount {
      return Err(InvalidChunkMetadata);
    }
    return Ok(());
  }
}
