/** Opening an archive file and verifying its signature in one pass.
    Models the verification half of crates/solarch-core/src/archive.rs. */
module Verification {
  import opened Outcomes
  import opened Results
  import opened Bytes
  import opened Streams
  import opened Manifests
  import opened Container
  import opened ProductionCrypto
  import opened Platforms
  import Sequences

  const BUFFER_BYTES: nat := 65_536

  // ----- layout -----

  /** A pending file is a finalized file whose last 64 bytes, the signature, are missing. */
  function Complete(bytes: seq<Byte>, pending: bool): seq<Byte> {
    if pending then bytes + Zeros(64) else bytes
  }

  /** Reads a range that lies inside the file. */
  method ReadRange(file: InputFile, range: Range) returns (read: seq<Byte>)
    requires range.start <= range.end <= |file.bytes|
    modifies file
    ensures read == file.bytes[range.start..range.end]
  {
    file.SeekStart(range.start);
    read := file.Take(range.end - range.start);
  }

  /** Opens exactly the files whose completion parses as a container. */
  method OpenLayout(p: Platform, file: InputFile, pending: bool) returns (r: Result<(seq<Range>, nat)>)
    modifies file
    ensures var full := Complete(file.bytes, pending);
      && (r.Ok? <==> ParseStructure(p.headers, full).Ok?)
      && (r.Ok? ==> SectionRangesOf(full, |full|) == Ok(r.value.0) && r.value.1 == |full| && WellLaid(r.value.0, |full|))
  {
    if ParseStructure(p.headers, Complete(file.bytes, pending)).Ok? { ParsedFile(p, file.bytes, pending); }
    file.SeekStart(0);
    var prelude :- file.ReadExact(PRELUDE_LEN);
    var declared :- DeclaredSize(prelude);
    if pending && declared < 64 {
      return Err(OutOfBounds);
    }
    if |file.bytes| != if pending then declared - 64 else declared {
      return Err(OutOfBounds);
    }
    SamePrelude(file.bytes, pending);
    var ranges :- SectionRanges(prelude, declared);
    HeaderOfLayout(p, file.bytes, pending, ranges);
    var headerBytes := ReadRange(file, ranges[0]);
    var _ :- ParseHeader(p.headers, headerBytes);
    return Ok((ranges, declared));
  }

  lemma SamePrelude(bytes: seq<Byte>, pending: bool)
    requires |bytes| >= PRELUDE_LEN
    ensures var full := Complete(bytes, pending);
      SectionRangesOf(bytes[0..PRELUDE_LEN], |full|) == SectionRangesOf(full, |full|)
  {
    var full := Complete(bytes, pending);
    assert full[..PRELUDE_LEN] == bytes[0..PRELUDE_LEN];
    OnlyThePreludeMatters(full, full[..PRELUDE_LEN]);
  }

  /** What a file whose completion parses looks like to the layout checks. */
  lemma ParsedFile(p: Platform, bytes: seq<Byte>, pending: bool)
    requires ParseStructure(p.headers, Complete(bytes, pending)).Ok?
    ensures |bytes| >= PRELUDE_LEN && DeclaredSize(bytes[0..PRELUDE_LEN]) == Ok(|Complete(bytes, pending)|)
  {
    var full := Complete(bytes, pending);
    AcceptedIsWellLaid(full, |full|);
    LaidEnd(SectionRangesOf(full, |full|).value, |full|);
    SamePrelude(bytes, pending);
    DeclaredSizeIsTheFileSize(bytes[0..PRELUDE_LEN], |full|);
  }

  /** The signature block is the last section; everything else is in front of it. */
  lemma LaidEnd(ranges: seq<Range>, total: nat)
    requires WellLaid(ranges, total)
    ensures ranges[4].start == total - SIGNATURE_BLOCK_LEN >= PRELUDE_LEN
    ensures forall i :: 0 <= i < 4 ==> PRELUDE_LEN <= ranges[i].start <= ranges[i].end <= ranges[4].start
  {
    assert Minimum(4) == SIGNATURE_BLOCK_LEN == Cap(4);
    assert forall i :: 0 <= i < 4 ==> ranges[i].start <= ranges[i].end == ranges[i + 1].start;
    assert ranges[0].end == ranges[1].start && ranges[1].end == ranges[2].start;
    assert ranges[2].end == ranges[3].start && ranges[3].end == ranges[4].start;
  }

  lemma HeaderOfLayout(p: Platform, bytes: seq<Byte>, pending: bool, ranges: seq<Range>)
    requires var full := Complete(bytes, pending); SectionRangesOf(full, |full|) == Ok(ranges)
    ensures WellLaid(ranges, |Complete(bytes, pending)|) && ranges[0].start <= ranges[0].end <= |bytes|
    ensures ParseStructure(p.headers, Complete(bytes, pending)).Ok?
      <==> ParseHeader(p.headers, bytes[ranges[0].start..ranges[0].end]).Ok?
  {
    var full := Complete(bytes, pending);
    AcceptedIsWellLaid(full, |full|);
    LaidEnd(ranges, |full|);
    assert bytes[PRELUDE_LEN..ranges[0].end] == full[PRELUDE_LEN..ranges[0].end];
    LayoutReads(p, full, ranges);
  }

  lemma LayoutReads(p: Platform, full: seq<Byte>, ranges: seq<Range>)
    requires SectionRangesOf(full, |full|) == Ok(ranges)
    ensures |full| >= PRELUDE_LEN && |ranges| == 5 && RangesInside(ranges, |full|)
    ensures ParseStructure(p.headers, full).Ok? <==> ParseHeader(p.headers, full[PRELUDE_LEN..ranges[0].end]).Ok?
  {
    InspectionReads(p.headers, full, ranges);
  }

  // ----- hashing -----

  /** A running SHA-256: the bytes fed so far. */
  class Hasher {
    var fed: seq<Byte>

    constructor ()
      ensures fed == []
    {
      fed := [];
    }

    method Update(more: seq<Byte>)
      modifies this
      ensures fed == old(fed) + more
    {
      fed := fed + more;
    }
  }

  function Lesser(a: nat, b: nat): nat {
    if a < b then a else b
  }

  /** One buffer of the single pass: feeds the covered part to the first hash and copies
      what belongs to the signature block. */
  method TakeBuffer(buffer: array<Byte>, count: nat, covered: Hasher, signature: array<Byte>, position: nat,
                    signatureOffset: nat, ghost bytes: seq<Byte>)
    requires position + count <= |bytes| <= signatureOffset + SIGNATURE_BLOCK_BYTES && count <= buffer.Length
    requires covered.fed == bytes[..Lesser(position, signatureOffset + SIGNATURE_PREFIX_BYTES)]
    requires buffer[..count] == bytes[position..position + count]
    requires signature.Length == SIGNATURE_BLOCK_BYTES && signature != buffer
    requires forall i :: 0 <= i < SIGNATURE_BLOCK_BYTES && signatureOffset + i < position ==> signature[i] == bytes[signatureOffset + i]
    modifies covered, signature
    ensures covered.fed == bytes[..Lesser(position + count, signatureOffset + SIGNATURE_PREFIX_BYTES)]
    ensures forall i :: 0 <= i < SIGNATURE_BLOCK_BYTES && signatureOffset + i < position + count ==>
      signature[i] == bytes[signatureOffset + i]
  {
    var coveredEnd := signatureOffset + SIGNATURE_PREFIX_BYTES;
    if position < coveredEnd {
      var part := Lesser(coveredEnd - position, count);
      Sequences.SliceOfSlice(bytes, position, position + count, 0, part);
      Sequences.SliceOfTake(buffer[..], count, 0, part);
      assert buffer[..][..count] == buffer[..count] && buffer[..][0..part] == buffer[..part];
      assert bytes[..position] + bytes[position..position + part] == bytes[..position + part];
      covered.Update(buffer[..part]);
    }
    var blockStart := if position < signatureOffset then signatureOffset else position;
    if blockStart < position + count {
      var source, target := blockStart - position, blockStart - signatureOffset;
      forall i | 0 <= i < position + count - blockStart {
        signature[target + i] := buffer[source + i];
      }
      assert forall i :: 0 <= i < count ==> buffer[i] == buffer[..count][i] == bytes[position + i];
    }
  }

  /** The single pass over a finalized file agrees with slicing it: whatever the size,
      the covered hash is over all but the last 64 bytes, the fingerprint over all of
      them, and the block is the last 104. */
  method HashFinalizedOnce(p: Platform, file: InputFile, size: nat, signatureOffset: nat)
    returns (r: Result<(seq<Byte>, string, seq<Byte>)>)
    modifies file
    ensures r.Ok? <==> size <= MAX_FINALIZED_ARCHIVE_BYTES && signatureOffset + SIGNATURE_BLOCK_BYTES == size == |file.bytes|
    ensures r.Ok? ==>
      && r.value == (p.sha256(file.bytes[..size - 64]), Digest(p, file.bytes), file.bytes[size - 104..])
      && Spells(r.value.1, p.sha256(file.bytes))
  {
    if size > MAX_FINALIZED_ARCHIVE_BYTES || signatureOffset + SIGNATURE_BLOCK_BYTES != size {
      return Err(OutOfBounds);
    }
    file.SeekStart(0);
    var covered := new Hasher();
    var whole := new Hasher();
    var signature := new Byte[SIGNATURE_BLOCK_BYTES](_ => 0);
    var buffer := new Byte[BUFFER_BYTES](_ => 0);
    var position := 0;
    ghost var bytes := if size <= |file.bytes| then file.bytes[..size] else file.bytes;
    while position < size
      invariant position <= |bytes| && file.position == position && position <= size
      invariant whole.fed == bytes[..position]
      invariant covered.fed == bytes[..Lesser(position, signatureOffset + SIGNATURE_PREFIX_BYTES)]
      invariant forall i :: 0 <= i < SIGNATURE_BLOCK_BYTES && signatureOffset + i < position ==>
        signature[i] == bytes[signatureOffset + i]
    {
      var requested := Lesser(size - position, BUFFER_BYTES);
      var _ :- file.ReadInto(buffer, requested);
      Sequences.SliceOfTake(file.bytes, |bytes|, position, position + requested);
      assert bytes[..position] + bytes[position..position + requested] == bytes[..position + requested];
      whole.Update(buffer[..requested]);
      TakeBuffer(buffer, requested, covered, signature, position, signatureOffset, bytes);
      position := position + requested;
    }
    if file.HasMore() {
      return Err(OutOfBounds);
    }
    assert bytes == file.bytes && signature[..] == bytes[size - 104..];
    DigestSpells(p, file.bytes, Digest(p, file.bytes));
    return Ok((p.sha256(covered.fed), LowercaseHex(p.sha256(whole.fed)), signature[..]));
  }

  /** Hashes the first `length` bytes, buffer by buffer. */
  method DigestPrefix(p: Platform, file: InputFile, length: nat) returns (r: Result<seq<Byte>>)
    modifies file
    ensures r.Ok? <==> length <= |file.bytes|
    ensures r.Ok? ==> r.value == p.sha256(file.bytes[..length])
  {
    file.SeekStart(0);
    var hasher := new Hasher();
    var total := 0;
    ghost var end := Lesser(length, |file.bytes|);
    while total < length && file.HasMore()
      invariant total <= end && file.position == total && hasher.fed == file.bytes[..total]
      decreases end - total
    {
      var read := Lesser(Lesser(length - total, BUFFER_BYTES), |file.bytes| - total);
      var more := file.Take(read);
      hasher.Update(more);
      total := total + read;
    }
    if total != length {
      return Err(TruncatedInput);
    }
    return Ok(p.sha256(hasher.fed));
  }

  // ----- signatures -----

  /** The last 104 bytes name the key and sign everything before the signature. */
  ghost predicate SignedBy(p: Platform, bytes: seq<Byte>, keyId: seq<Byte>, publicKey: seq<Byte>) {
    && |bytes| >= SIGNATURE_BLOCK_BYTES && ParseBlock(bytes[|bytes| - 104..]).Ok?
    && var block := ParseBlock(bytes[|bytes| - 104..]).value;
    && block.prefix.keyId == keyId && p.validKey(publicKey)
    && p.signatureHolds(publicKey, p.sha256(bytes[..|bytes| - 64]), block.signature)
  }

  datatype FinalVerification = FinalVerification(archiveFingerprint: string, sizeBytes: nat, signingKeyId: seq<Byte>)

  method VerifyFinalizedOpen(p: Platform, file: InputFile, ranges: seq<Range>, size: nat, expectedKeyId: seq<Byte>,
                             publicKey: seq<Byte>)
    returns (r: Result<FinalVerification>)
    requires WellLaid(ranges, size)
    modifies file
    ensures r.Ok? <==>
      size == |file.bytes| <= MAX_FINALIZED_ARCHIVE_BYTES && SignedBy(p, file.bytes, expectedKeyId, publicKey)
    ensures r.Ok? ==> r.value == FinalVerification(Digest(p, file.bytes), size, expectedKeyId)
  {
    LaidEnd(ranges, size);
    var hashed :- HashFinalizedOnce(p, file, size, ranges[4].start);
    var block :- ParseBlock(hashed.2);
    if block.prefix.keyId != expectedKeyId {
      return Err(SignatureFailure);
    }
    if !p.validKey(publicKey) {
      return Err(SignatureFailure);
    }
    if !p.signatureHolds(publicKey, hashed.0, block.signature) {
      return Err(SignatureFailure);
    }
    return Ok(FinalVerification(hashed.1, size, block.prefix.keyId));
  }

  /** Verifies exactly the well-formed files signed by the expected key. */
  method VerifyFinalized(p: Platform, file: InputFile, expectedKeyId: seq<Byte>, publicKey: seq<Byte>)
    returns (r: Result<FinalVerification>)
    modifies file
    ensures r.Ok? <==> ParseStructure(p.headers, file.bytes).Ok? && SignedBy(p, file.bytes, expectedKeyId, publicKey)
    ensures r.Ok? ==> r.value == FinalVerification(Digest(p, file.bytes), |file.bytes|, expectedKeyId)
    ensures r.Ok? ==> Spells(r.value.archiveFingerprint, p.sha256(file.bytes))
  {
    var layout :- OpenLayout(p, file, false);
    AcceptedFits(file.bytes, layout.1);
    DigestSpells(p, file.bytes, Digest(p, file.bytes));
    r := VerifyFinalizedOpen(p, file, layout.0, layout.1, expectedKeyId, publicKey);
  }

  lemma AcceptedFits(prelude: seq<Byte>, sizeBytes: nat)
    requires SectionRangesOf(prelude, sizeBytes).Ok?
    ensures sizeBytes <= MAX_FINALIZED_ARCHIVE_BYTES
  {
    var lengths := PreludeShape(prelude, sizeBytes);
    CapsFitContainer(lengths);
  }
}
