/** Cutting source files into numbered chunks: the reference view that the builder's
    loops and the reader's arithmetic are measured against. */
module Chunks {
  import opened Bytes
  import opened Manifests
  import opened ProductionCrypto
  import opened Discovery
  import Sequences

  // ----- one file -----

  function SplitChunks(content: seq<Byte>): (chunks: seq<seq<Byte>>)
    decreases |content|
  {
    if |content| == 0 then []
    else if |content| <= CHUNK_SIZE then [content]
    else [content[..CHUNK_SIZE]] + SplitChunks(content[CHUNK_SIZE..])
  }

  lemma {:induction false} SplitCount(content: seq<Byte>)
    ensures |SplitChunks(content)| == ChunkCount(|content|)
    decreases |content|
  {
    if |content| > CHUNK_SIZE { SplitCount(content[CHUNK_SIZE..]); }
  }

  /** Chunk `k` is the `k`-th slice of the file, and the last one is what is left. */
  lemma {:induction false} ChunkIsSlice(content: seq<Byte>, k: nat)
    requires k < |SplitChunks(content)|
    ensures k * CHUNK_SIZE < |content|
    ensures var end := if (k + 1) * CHUNK_SIZE < |content| then (k + 1) * CHUNK_SIZE else |content|;
            SplitChunks(content)[k] == content[k * CHUNK_SIZE..end]
    decreases k
  {
    if |content| <= CHUNK_SIZE {
      assert content[0..|content|] == content;
    } else if k > 0 {
      var rest := content[CHUNK_SIZE..];
      ChunkIsSlice(rest, k - 1);
      var end := if k * CHUNK_SIZE < |rest| then k * CHUNK_SIZE else |rest|;
      Sequences.SliceOfDrop(content, CHUNK_SIZE, (k - 1) * CHUNK_SIZE, end);
    }
  }

  lemma {:induction false} SplitFlatten(content: seq<Byte>)
    ensures Flatten(SplitChunks(content)) == content
    decreases |content|
  {
    if |content| > CHUNK_SIZE {
      SplitFlatten(content[CHUNK_SIZE..]);
      assert content == content[..CHUNK_SIZE] + content[CHUNK_SIZE..];
    } else if |content| > 0 {
      assert SplitChunks(content)[1..] == [];
    }
  }

  // ----- all files -----

  /** The chunks of the first `n` files, numbered across files. */
  function AllChunks(sources: seq<SourceFile>, n: nat): (chunks: seq<seq<Byte>>)
    requires n <= |sources|
  {
    if n == 0 then [] else AllChunks(sources, n - 1) + SplitChunks(sources[n - 1].content)
  }

  /** `chunks` holds the chunks of one file from number `first` on. */
  ghost predicate Holds(chunks: seq<seq<Byte>>, first: nat, content: seq<Byte>) {
    && first + |SplitChunks(content)| <= |chunks|
    && forall k :: 0 <= k < |SplitChunks(content)| ==> chunks[first + k] == SplitChunks(content)[k]
  }

  /** The chunk numbers of file `i` follow those of the files before it. */
  lemma {:induction false} ChunksOfFile(sources: seq<SourceFile>, i: nat, n: nat)
    requires i < n <= |sources|
    ensures Holds(AllChunks(sources, n), |AllChunks(sources, i)|, sources[i].content)
  {
    if i < n - 1 { ChunksOfFile(sources, i, n - 1); }
  }

  lemma {:induction false} ChunkSizes(content: seq<Byte>, k: nat)
    requires k < |SplitChunks(content)|
    ensures 0 < |SplitChunks(content)[k]| <= CHUNK_SIZE
  {
    ChunkIsSlice(content, k);
  }

  lemma {:induction false} AllChunkSizes(sources: seq<SourceFile>, n: nat, k: nat)
    requires n <= |sources| && k < |AllChunks(sources, n)|
    ensures 0 < |AllChunks(sources, n)[k]| <= CHUNK_SIZE
  {
    var before := |AllChunks(sources, n - 1)|;
    if k < before {
      AllChunkSizes(sources, n - 1, k);
    } else {
      ChunkSizes(sources[n - 1].content, k - before);
    }
  }

  // ----- records -----

  /** Where the ciphertext of chunk `n` starts in the data section. */
  function CipherOffset(chunks: seq<seq<Byte>>, n: nat): (offset: nat)
    requires n <= |chunks|
    ensures offset >= INDEX_DATA_PREFIX_BYTES
  {
    if n == 0 then INDEX_DATA_PREFIX_BYTES else CipherOffset(chunks, n - 1) + |chunks[n - 1]| + AEAD_TAG_BYTES
  }

  function RecordOf(chunks: seq<seq<Byte>>, k: nat): IndexRecord
    requires k < |chunks|
  {
    IndexRecord(CipherOffset(chunks, k), |chunks[k]| + AEAD_TAG_BYTES, |chunks[k]|)
  }

  /** The records of the first `n` chunks: consecutive ciphertexts behind the prefix. */
  function RecordsUpTo(chunks: seq<seq<Byte>>, n: nat): (records: seq<IndexRecord>)
    requires n <= |chunks|
    ensures |records| == n && forall k :: 0 <= k < n ==> records[k] == RecordOf(chunks, k)
  {
    if n == 0 then [] else RecordsUpTo(chunks, n - 1) + [RecordOf(chunks, n - 1)]
  }

  function RecordsOf(chunks: seq<seq<Byte>>): (records: seq<IndexRecord>) {
    RecordsUpTo(chunks, |chunks|)
  }

  /** Summing the recorded lengths gives the recorded offsets. */
  lemma {:induction false} RecordedOffset(chunks: seq<seq<Byte>>, n: nat, k: nat)
    requires k <= n <= |chunks|
    ensures DataOffset(RecordsUpTo(chunks, n), k) == CipherOffset(chunks, k)
  {
    if k > 0 { RecordedOffset(chunks, n, k - 1); }
  }

  lemma RecordsAreValid(chunks: seq<seq<Byte>>)
    requires |chunks| <= MAX_CHUNK_COUNT
    requires forall k :: 0 <= k < |chunks| ==> 0 < |chunks[k]| <= CHUNK_SIZE
    ensures ValidRecords(RecordsOf(chunks))
  {
    forall k | 0 <= k < |chunks| ensures ValidRecord(RecordsOf(chunks), k) {
      RecordedOffset(chunks, |chunks|, k);
    }
  }

  // ----- the chunk budget -----

  lemma {:induction false} ContentBytesOfPrefix(sources: seq<SourceFile>, n: nat)
    requires n < |sources|
    ensures ContentBytes(sources[..n + 1]) == ContentBytes(sources[..n]) + |sources[n].content|
  {
    assert sources[..n + 1] == sources[..n] + [sources[n]];
    ContentBytesConcat(sources[..n], [sources[n]]);
  }

  /** Each file wastes less than one chunk. */
  lemma {:induction false} ChunkTotal(sources: seq<SourceFile>, n: nat)
    requires n <= |sources|
    ensures |AllChunks(sources, n)| * CHUNK_SIZE <= ContentBytes(sources[..n]) + n * (CHUNK_SIZE - 1)
  {
    if n > 0 {
      ChunkTotal(sources, n - 1);
      SplitCount(sources[n - 1].content);
      ContentBytesOfPrefix(sources, n - 1);
    }
  }

  /** Every inventory that discovery accepts needs at most one chunk per file and one
      per whole mebibyte: never more than 10,512, far below the limit of 16,384. */
  lemma ChunkBudget(sources: seq<SourceFile>)
    requires |sources| <= MAX_FILES && ContentBytes(sources) <= MAX_TOTAL_SIZE_BYTES
    ensures |AllChunks(sources, |sources|)| <= |sources| + ContentBytes(sources) / CHUNK_SIZE <= 10_512 < MAX_CHUNKS
  {
    ChunkTotal(sources, |sources|);
    assert sources[..|sources|] == sources;
  }

  lemma {:induction false} DataLength(chunks: seq<seq<Byte>>, n: nat)
    requires n <= |chunks|
    ensures CipherOffset(chunks, n) == INDEX_DATA_PREFIX_BYTES + |Flatten(chunks[..n])| + AEAD_TAG_BYTES * n
  {
    if n > 0 {
      DataLength(chunks, n - 1);
      assert chunks[..n] == chunks[..n - 1] + [chunks[n - 1]];
      FlattenAppend(chunks[..n - 1], [chunks[n - 1]]);
      assert Flatten([chunks[n - 1]]) == chunks[n - 1];
    }
  }

  lemma {:induction false} AllChunksFlatten(sources: seq<SourceFile>, n: nat)
    requires n <= |sources|
    ensures |Flatten(AllChunks(sources, n))| == ContentBytes(sources[..n])
  {
    if n > 0 {
      AllChunksFlatten(sources, n - 1);
      FlattenAppend(AllChunks(sources, n - 1), SplitChunks(sources[n - 1].content));
      SplitFlatten(sources[n - 1].content);
      ContentBytesOfPrefix(sources, n - 1);
    }
  }

  /** So the index and data sections of a discovered inventory stay below their caps. */
  lemma SectionBudget(sources: seq<SourceFile>)
    requires |sources| <= MAX_FILES && ContentBytes(sources) <= MAX_TOTAL_SIZE_BYTES
    ensures var chunks := AllChunks(sources, |sources|);
      && ValidRecords(RecordsOf(chunks))
      && |Idx1Bytes(RecordsOf(chunks))| <= MAX_ENCRYPTED_INDEX_BYTES - AEAD_TAG_BYTES
      && CipherOffset(chunks, |chunks|) <= MAX_ENCRYPTED_DATA_BYTES
  {
    var chunks := AllChunks(sources, |sources|);
    ChunkBudget(sources);
    forall k | 0 <= k < |chunks| ensures 0 < |chunks[k]| <= CHUNK_SIZE {
      AllChunkSizes(sources, |sources|, k);
    }
    RecordsAreValid(chunks);
    DataLength(chunks, |chunks|);
    AllChunksFlatten(sources, |sources|);
    assert sources[..|sources|] == sources && chunks[..|chunks|] == chunks;
  }
}
