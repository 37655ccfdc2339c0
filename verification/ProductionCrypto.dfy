/** Binary codecs of the index, data and signature sections.
    Models crates/solarch-core/src/production_crypto.rs. */
module ProductionCrypto {
  import opened Outcomes
  import opened Results
  import opened Bytes

  const CHUNK_PLAINTEXT_BYTES: nat := 1_048_576
  const MAX_CHUNK_COUNT: nat := 16_384
  const AEAD_TAG_BYTES: nat := 16
  const INDEX_RECORD_BYTES: nat := 16
  const INDEX_DATA_PREFIX_BYTES: nat := 8
  const SIGNATURE_PREFIX_BYTES: nat := 40
  const SIGNATURE_BLOCK_BYTES: nat := 104
  const MAX_ENCRYPTED_INDEX_BYTES: nat := 262_168
  const MAX_ENCRYPTED_DATA_BYTES: nat := 8 + 536_870_912 + 16_384 * 16
  const MAX_FINALIZED_ARCHIVE_BYTES: nat := 1_073_741_824

  const IDX1: seq<Byte> := [0x49, 0x44, 0x58, 0x31]
  const DAT1: seq<Byte> := [0x44, 0x41, 0x54, 0x31]
  const SIG1: seq<Byte> := [0x53, 0x49, 0x47, 0x31]

  datatype IndexRecord = IndexRecord(offset: nat, ciphertextLength: nat, plaintextLength: nat)

  // ----- what valid records are -----

  /** Offset, inside the data section, of the ciphertext of record `n`. */
  function DataOffset(records: seq<IndexRecord>, n: nat): nat
    requires n <= |records|
  {
    if n == 0 then INDEX_DATA_PREFIX_BYTES else DataOffset(records, n - 1) + records[n - 1].ciphertextLength
  }

  predicate ValidRecord(records: seq<IndexRecord>, n: nat)
    requires n < |records|
  {
    && records[n].offset == DataOffset(records, n)
    && 0 < records[n].plaintextLength <= CHUNK_PLAINTEXT_BYTES
    && records[n].ciphertextLength == records[n].plaintextLength + AEAD_TAG_BYTES
  }

  ghost predicate ValidRecords(records: seq<IndexRecord>) {
    |records| <= MAX_CHUNK_COUNT && forall n :: 0 <= n < |records| ==> ValidRecord(records, n)
  }

  lemma {:induction false} DataOffsetBound(records: seq<IndexRecord>, n: nat)
    requires ValidRecords(records) && n <= |records|
    ensures DataOffset(records, n) <= INDEX_DATA_PREFIX_BYTES + n * (CHUNK_PLAINTEXT_BYTES + AEAD_TAG_BYTES)
  {
    if n > 0 {
      DataOffsetBound(records, n - 1);
      assert ValidRecord(records, n - 1);
    }
  }

  lemma {:induction false} DataOffsetMonotone(records: seq<IndexRecord>, i: nat, n: nat)
    requires i <= n <= |records|
    ensures DataOffset(records, i) <= DataOffset(records, n)
  {
    if i < n { DataOffsetMonotone(records, i, n - 1); }
  }

  /** Accepts exactly the contiguous, well-sized record lists, and with a data length
      only those that fill it. */
  method ValidateIndexRecords(records: seq<IndexRecord>, dataLength: Option<nat>) returns (r: Result<()>)
    ensures r.Ok? <==> ValidRecords(records) && (dataLength.Some? ==> DataOffset(records, |records|) == dataLength.value)
  {
    if |records| > MAX_CHUNK_COUNT {
      return Err(LimitExceeded);
    }
    var expectedOffset, i := INDEX_DATA_PREFIX_BYTES, 0;
    while i < |records|
      invariant 0 <= i <= |records| && expectedOffset == DataOffset(records, i)
      invariant forall n :: 0 <= n < i ==> ValidRecord(records, n)
    {
      var record := records[i];
      if record.offset != expectedOffset
         || record.plaintextLength == 0
         || record.plaintextLength > CHUNK_PLAINTEXT_BYTES
         || record.ciphertextLength != record.plaintextLength + AEAD_TAG_BYTES
      {
        assert !ValidRecord(records, i);
        return Err(InvalidChunkMetadata);
      }
      expectedOffset := expectedOffset + record.ciphertextLength;
      i := i + 1;
    }
    if dataLength.Some? && expectedOffset != dataLength.value {
      return Err(InvalidChunkMetadata);
    }
    return Ok(());
  }

  // ----- IDX1 -----

  function RecordBytes(record: IndexRecord): (bytes: seq<Byte>)
    ensures |bytes| == INDEX_RECORD_BYTES
  {
    ToLE(record.offset, 8) + ToLE(record.ciphertextLength, 4) + ToLE(record.plaintextLength, 4)
  }

  function RecordFrom(bytes: seq<Byte>): IndexRecord
    requires |bytes| == INDEX_RECORD_BYTES
  {
    IndexRecord(FromLE(bytes[..8]), FromLE(bytes[8..12]), FromLE(bytes[12..]))
  }

  lemma RecordRoundTrip(record: IndexRecord)
    requires record.offset < U64_LIMIT && record.ciphertextLength < U32_LIMIT && record.plaintextLength < U32_LIMIT
    ensures RecordFrom(RecordBytes(record)) == record
  {
    FromToU64(record.offset);
    FromToU32(record.ciphertextLength);
    FromToU32(record.plaintextLength);
    var bytes := RecordBytes(record);
    assert bytes[..8] == ToLE(record.offset, 8);
    assert bytes[8..12] == ToLE(record.ciphertextLength, 4);
    assert bytes[12..] == ToLE(record.plaintextLength, 4);
  }

  lemma RecordBytesRoundTrip(bytes: seq<Byte>)
    requires |bytes| == INDEX_RECORD_BYTES
    ensures RecordBytes(RecordFrom(bytes)) == bytes
  {
    ToFromLE(bytes[..8]);
    ToFromLE(bytes[8..12]);
    ToFromLE(bytes[12..]);
    assert bytes == bytes[..8] + bytes[8..12] + bytes[12..];
  }

  function RecordTable(records: seq<IndexRecord>): (bytes: seq<Byte>)
    ensures |bytes| == INDEX_RECORD_BYTES * |records|
  {
    if records == [] then [] else RecordTable(records[..|records| - 1]) + RecordBytes(records[|records| - 1])
  }

  /** The index section: magic, count, then one fixed-size record per chunk. */
  function Idx1Bytes(records: seq<IndexRecord>): (bytes: seq<Byte>)
    ensures |bytes| == INDEX_DATA_PREFIX_BYTES + INDEX_RECORD_BYTES * |records|
  {
    IDX1 + ToLE(|records|, 4) + RecordTable(records)
  }

  method EncodeIdx1(records: seq<IndexRecord>) returns (r: Result<seq<Byte>>)
    ensures r.Ok? <==> ValidRecords(records)
    ensures r.Ok? ==> r.value == Idx1Bytes(records)
  {
    var _ :- ValidateIndexRecords(records, None);
    var bytes := IDX1 + ToLE(|records|, 4);
    var i := 0;
    while i < |records|
      invariant 0 <= i <= |records|
      invariant bytes == IDX1 + ToLE(|records|, 4) + RecordTable(records[..i])
    {
      assert records[..i + 1][..i] == records[..i];
      bytes := bytes + ToLE(records[i].offset, 8);
      bytes := bytes + ToLE(records[i].ciphertextLength, 4);
      bytes := bytes + ToLE(records[i].plaintextLength, 4);
      i := i + 1;
    }
    assert records[..i] == records;
    return Ok(bytes);
  }

  lemma TableStep(bytes: seq<Byte>, records: seq<IndexRecord>, record: IndexRecord)
    requires 24 + 16 * |records| <= |bytes|
    requires RecordTable(records) == bytes[8..8 + 16 * |records|]
    requires RecordBytes(record) == bytes[8 + 16 * |records|..24 + 16 * |records|]
    ensures RecordTable(records + [record]) == bytes[8..24 + 16 * |records|]
  {
    var all, start := records + [record], 8 + 16 * |records|;
    assert all[..|all| - 1] == records;
    SliceJoin(bytes, 8, start, start + 16);
  }

  lemma SliceJoin(bytes: seq<Byte>, i: nat, j: nat, k: nat)
    requires i <= j <= k <= |bytes|
    ensures bytes[i..k] == bytes[i..j] + bytes[j..k]
  {
  }

  /** The bytes are the encoding of a valid record list. */
  ghost predicate IsIdx1(bytes: seq<Byte>) {
    exists records :: ValidRecords(records) && bytes == Idx1Bytes(records)
  }

  lemma Idx1Shape(bytes: seq<Byte>)
    requires IsIdx1(bytes)
    ensures |bytes| >= 8 && bytes[..4] == IDX1
    ensures FromLE(bytes[4..8]) <= MAX_CHUNK_COUNT && |bytes| == 8 + 16 * FromLE(bytes[4..8])
  {
    var records :| ValidRecords(records) && bytes == Idx1Bytes(records);
    Idx1Fields(records);
  }

  lemma Idx1Decoded(bytes: seq<Byte>, decoded: seq<IndexRecord>)
    requires IsIdx1(bytes) && |bytes| == 8 + 16 * |decoded|
    requires forall k :: 0 <= k < |decoded| ==> decoded[k] == RecordFrom(bytes[8 + 16 * k..24 + 16 * k])
    ensures ValidRecords(decoded)
  {
    var records :| ValidRecords(records) && bytes == Idx1Bytes(records);
    Idx1Fields(records);
    assert records == decoded;
  }

  method ReadRecords(bytes: seq<Byte>, count: nat) returns (records: seq<IndexRecord>)
    requires |bytes| == 8 + 16 * count
    ensures |records| == count && RecordTable(records) == bytes[8..]
    ensures forall k :: 0 <= k < count ==> records[k] == RecordFrom(bytes[8 + 16 * k..24 + 16 * k])
  {
    records := [];
    var i := 0;
    while i < count
      invariant 0 <= i <= count && |records| == i
      invariant RecordTable(records) == bytes[8..8 + 16 * i]
      invariant forall k :: 0 <= k < i ==> records[k] == RecordFrom(bytes[8 + 16 * k..24 + 16 * k])
    {
      var record := RecordFrom(bytes[8 + 16 * i..24 + 16 * i]);
      RecordBytesRoundTrip(bytes[8 + 16 * i..24 + 16 * i]);
      TableStep(bytes, records, record);
      records := records + [record];
      i := i + 1;
    }
  }

  /** Decoding accepts exactly the encodings of valid record lists and inverts them. */
  method DecodeIdx1(bytes: seq<Byte>) returns (r: Result<seq<IndexRecord>>)
    ensures r.Ok? <==> IsIdx1(bytes)
    ensures r.Ok? ==> ValidRecords(r.value) && bytes == Idx1Bytes(r.value)
  {
    if IsIdx1(bytes) { Idx1Shape(bytes); }
    if |bytes| < INDEX_DATA_PREFIX_BYTES || |bytes| > MAX_ENCRYPTED_INDEX_BYTES - 16 {
      return Err(InvalidChunkMetadata);
    }
    if bytes[..4] != IDX1 {
      return Err(InvalidChunkMetadata);
    }
    var count := FromLE(bytes[4..8]);
    if count > MAX_CHUNK_COUNT {
      return Err(LimitExceeded);
    }
    if |bytes| != INDEX_DATA_PREFIX_BYTES + count * INDEX_RECORD_BYTES {
      return Err(InvalidChunkMetadata);
    }
    var records := ReadRecords(bytes, count);
    ToFromLE(bytes[4..8]);
    assert bytes == bytes[..4] + bytes[4..8] + bytes[8..];
    if IsIdx1(bytes) { Idx1Decoded(bytes, records); }
    var _ :- ValidateIndexRecords(records, None);
    return Ok(records);
  }

  lemma Idx1Fields(records: seq<IndexRecord>)
    requires ValidRecords(records)
    ensures var bytes := Idx1Bytes(records);
      && bytes[..4] == IDX1 && FromLE(bytes[4..8]) == |records|
      && forall k :: 0 <= k < |records| ==> records[k] == RecordFrom(bytes[8 + 16 * k..24 + 16 * k])
  {
    var bytes := Idx1Bytes(records);
    assert bytes[4..8] == ToLE(|records|, 4);
    FromToU32(|records|);
    forall k | 0 <= k < |records| ensures records[k] == RecordFrom(bytes[8 + 16 * k..24 + 16 * k]) {
      TableAt(records, k);
      assert bytes[8 + 16 * k..24 + 16 * k] == RecordTable(records)[16 * k..16 * k + 16];
      assert ValidRecord(records, k);
      DataOffsetBound(records, k);
      RecordRoundTrip(records[k]);
    }
  }

  lemma {:induction false} TableAt(records: seq<IndexRecord>, k: nat)
    requires k < |records|
    ensures RecordTable(records)[16 * k..16 * k + 16] == RecordBytes(records[k])
  {
    var front := records[..|records| - 1];
    if k < |front| {
      TableAt(front, k);
      assert RecordTable(records)[16 * k..16 * k + 16] == RecordTable(front)[16 * k..16 * k + 16];
    }
  }

  /** Two valid record lists never share an encoding. */
  lemma Idx1Injective(a: seq<IndexRecord>, b: seq<IndexRecord>)
    requires ValidRecords(a) && ValidRecords(b) && Idx1Bytes(a) == Idx1Bytes(b)
    ensures a == b
  {
    Idx1Fields(a);
    Idx1Fields(b);
  }

  // ----- DAT1 -----

  function Dat1Prefix(count: nat): (bytes: seq<Byte>)
    ensures |bytes| == INDEX_DATA_PREFIX_BYTES
  {
    DAT1 + ToLE(count, 4)
  }

  lemma Dat1Fields(prefix: seq<Byte>, count: nat)
    requires |prefix| == INDEX_DATA_PREFIX_BYTES && count < U32_LIMIT
    ensures prefix == Dat1Prefix(count) <==> prefix[..4] == DAT1 && FromLE(prefix[4..8]) == count
  {
    FromToU32(count);
    ToFromLE(prefix[4..8]);
    assert prefix == prefix[..4] + prefix[4..8];
    assert Dat1Prefix(count)[..4] == DAT1 && Dat1Prefix(count)[4..8] == ToLE(count, 4);
  }

  method ValidateDat1Layout(prefix: seq<Byte>, dataLength: nat, records: seq<IndexRecord>) returns (r: Result<()>)
    ensures r.Ok? <==>
      && prefix == Dat1Prefix(|records|) && dataLength <= MAX_ENCRYPTED_DATA_BYTES
      && ValidRecords(records) && DataOffset(records, |records|) == dataLength
  {
    if |prefix| != INDEX_DATA_PREFIX_BYTES || prefix[..4] != DAT1 || dataLength > MAX_ENCRYPTED_DATA_BYTES {
      assert Dat1Prefix(|records|)[..4] == DAT1;
      return Err(InvalidChunkMetadata);
    }
    var count := FromLE(prefix[4..8]);
    if |records| <= MAX_CHUNK_COUNT { Dat1Fields(prefix, |records|); }
    if count != |records| || count > MAX_CHUNK_COUNT {
      return Err(InvalidChunkMetadata);
    }
    r := ValidateIndexRecords(records, Some(dataLength));
  }

  // ----- SIG1 -----

  predicate KeyIdByte(b: Byte) {
    0x61 <= b <= 0x7a || 0x30 <= b <= 0x39 || b == 0x5f || b == 0x2d
  }

  predicate ValidKeyId(id: seq<Byte>) {
    0 < |id| <= 32 && forall i :: 0 <= i < |id| ==> KeyIdByte(id[i])
  }

  datatype SignaturePrefix = SignaturePrefix(keyId: seq<Byte>)
  datatype SignatureBlock = SignatureBlock(prefix: SignaturePrefix, signature: seq<Byte>)

  function NewSignaturePrefix(keyId: seq<Byte>): Result<SignaturePrefix> {
    if ValidKeyId(keyId) then Ok(SignaturePrefix(keyId)) else Err(SignatureFailure)
  }

  function EncodePrefix(prefix: SignaturePrefix): (bytes: seq<Byte>)
    requires ValidKeyId(prefix.keyId)
    ensures |bytes| == SIGNATURE_PREFIX_BYTES
  {
    SIG1 + ToLE(1, 2) + ToLE(1, 2) + prefix.keyId + Zeros(32 - |prefix.keyId|)
  }

  /** Index of the first zero byte, or the length. */
  function FirstZero(bytes: seq<Byte>): (at: nat)
    ensures at <= |bytes|
    ensures forall i :: 0 <= i < at ==> bytes[i] != 0
    ensures at < |bytes| ==> bytes[at] == 0
  {
    if bytes == [] || bytes[0] == 0 then 0 else 1 + FirstZero(bytes[1..])
  }

  function ParsePrefix(bytes: seq<Byte>): Result<SignaturePrefix> {
    if |bytes| != SIGNATURE_PREFIX_BYTES || bytes[..4] != SIG1 || FromLE(bytes[4..6]) != 1 || FromLE(bytes[6..8]) != 1
    then Err(SignatureFailure)
    else
      var padded := bytes[8..40];
      var length := FirstZero(padded);
      if exists i :: length <= i < 32 && padded[i] != 0 then Err(SignatureFailure)
      else NewSignaturePrefix(padded[..length])
  }

  /** Parsing accepts exactly what encoding a valid prefix yields. */
  lemma PrefixRoundTrip(prefix: SignaturePrefix)
    requires ValidKeyId(prefix.keyId)
    ensures ParsePrefix(EncodePrefix(prefix)) == Ok(prefix)
  {
    FromToLE(1, 2);
    Pow256Values();
    PrefixFields(SIG1, ToLE(1, 2), prefix.keyId, Zeros(32 - |prefix.keyId|));
    PaddedKeyId(prefix.keyId);
  }

  lemma PrefixFields(magic: seq<Byte>, one: seq<Byte>, id: seq<Byte>, padding: seq<Byte>)
    requires |magic| == 4 && |one| == 2 && |id| + |padding| == 32
    ensures var bytes := magic + one + one + id + padding;
      bytes[..4] == magic && bytes[4..6] == one && bytes[6..8] == one && bytes[8..40] == id + padding
  {
  }

  lemma PaddedKeyId(id: seq<Byte>)
    requires ValidKeyId(id)
    ensures var padded := id + Zeros(32 - |id|);
            FirstZero(padded) == |id| && padded[..|id|] == id && forall i :: |id| <= i < 32 ==> padded[i] == 0
  {
    var padded := id + Zeros(32 - |id|);
    assert forall i :: 0 <= i < |id| ==> KeyIdByte(id[i]) && padded[i] == id[i];
    assert |id| < 32 ==> padded[|id|] == 0;
  }

  lemma PrefixBytesRoundTrip(bytes: seq<Byte>)
    requires ParsePrefix(bytes).Ok?
    ensures ValidKeyId(ParsePrefix(bytes).value.keyId)
    ensures EncodePrefix(ParsePrefix(bytes).value) == bytes
  {
    var id := ParsePrefix(bytes).value.keyId;
    ToFromLE(bytes[4..6]);
    ToFromLE(bytes[6..8]);
    var padded := bytes[8..40];
    assert padded == id + Zeros(32 - |id|);
    assert bytes == bytes[..4] + bytes[4..6] + bytes[6..8] + padded;
    assert EncodePrefix(SignaturePrefix(id)) == SIG1 + ToLE(1, 2) + ToLE(1, 2) + (id + Zeros(32 - |id|));
  }

  function EncodeBlock(block: SignatureBlock): (bytes: seq<Byte>)
    requires ValidKeyId(block.prefix.keyId) && |block.signature| == 64
    ensures |bytes| == SIGNATURE_BLOCK_BYTES
  {
    EncodePrefix(block.prefix) + block.signature
  }

  function ParseBlock(bytes: seq<Byte>): Result<SignatureBlock> {
    if |bytes| != SIGNATURE_BLOCK_BYTES then Err(SignatureFailure)
    else
      var prefix :- ParsePrefix(bytes[..SIGNATURE_PREFIX_BYTES]);
      Ok(SignatureBlock(prefix, bytes[SIGNATURE_PREFIX_BYTES..]))
  }

  /** The signature block codec is a bijection between valid blocks and accepted bytes. */
  lemma BlockRoundTrip(block: SignatureBlock)
    requires ValidKeyId(block.prefix.keyId) && |block.signature| == 64
    ensures ParseBlock(EncodeBlock(block)) == Ok(block)
  {
    PrefixRoundTrip(block.prefix);
    assert EncodeBlock(block)[..40] == EncodePrefix(block.prefix);
    assert EncodeBlock(block)[40..] == block.signature;
  }

  lemma BlockBytesRoundTrip(bytes: seq<Byte>)
    requires ParseBlock(bytes).Ok?
    ensures var block := ParseBlock(bytes).value;
      ValidKeyId(block.prefix.keyId) && |block.signature| == 64 && EncodeBlock(block) == bytes
  {
    PrefixBytesRoundTrip(bytes[..40]);
    assert bytes == bytes[..40] + bytes[40..];
  }
}
