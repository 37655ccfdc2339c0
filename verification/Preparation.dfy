/** Writing a pending archive and accepting its signature.
    Models ArchiveBuilder and PendingBuild of crates/solarch-core/src/archive.rs. */
module Preparation {
  import opened Outcomes
  import opened Results
  import opened Bytes
  import opened Streams
  import opened Manifests
  import opened Container
  import opened ProductionCrypto
  import opened Discovery
  import opened Platforms
  import opened Chunks
  import opened Builder
  import opened Verification
  import Sequences

  // ----- what is written -----

  /** Everything the bytes of an archive depend on. */
  datatype Build = Build(contentKey: seq<Byte>, metadata: seq<Byte>, sources: seq<SourceFile>, keyId: seq<Byte>)

  function BuildKeys(b: Build): Keys {
    Keys(b.contentKey, b.metadata)
  }

  function ArchiveIdOf(p: Platform, b: Build): string {
    match ParseHeader(p.headers, b.metadata) case Ok(header) => header.archiveId case Err(_) => ""
  }

  function BuiltManifest(p: Platform, b: Build): Manifest {
    ManifestOf(p, ArchiveIdOf(p, b), b.sources)
  }

  function BuiltChunks(b: Build): seq<seq<Byte>> {
    AllChunks(b.sources, |b.sources|)
  }

  function SealedManifest(p: Platform, b: Build): seq<Byte> {
    var json := p.manifestJson(BuiltManifest(p, b));
    p.seal(BuildKeys(b), ManifestSlot(|json|), json)
  }

  function SealedIndex(p: Platform, b: Build): seq<Byte> {
    var index := Idx1Bytes(RecordsOf(BuiltChunks(b)));
    p.seal(BuildKeys(b), IndexSlot(|index|), index)
  }

  function DataSection(p: Platform, b: Build): seq<Byte> {
    Dat1Prefix(|BuiltChunks(b)|) + SealedUpTo(p, BuildKeys(b), BuiltChunks(b), |BuiltChunks(b)|)
  }

  function BuiltSections(p: Platform, b: Build): (sections: seq<seq<Byte>>)
    ensures |sections| == 4
  {
    [b.metadata, SealedManifest(p, b), SealedIndex(p, b), DataSection(p, b)]
  }

  function BuiltLengths(p: Platform, b: Build): (lengths: seq<nat>)
    ensures |lengths| == 5
  {
    [|b.metadata|, |SealedManifest(p, b)|, |SealedIndex(p, b)|, |DataSection(p, b)|, SIGNATURE_BLOCK_BYTES]
  }

  function PendingBytes(p: Platform, b: Build): seq<Byte>
    requires ValidKeyId(b.keyId)
  {
    PreludeBytes(BuiltLengths(p, b)) + b.metadata + SealedManifest(p, b) + SealedIndex(p, b) + DataSection(p, b)
    + EncodePrefix(SignaturePrefix(b.keyId))
  }

  /** What a request must satisfy: a canonical header, a well-formed key id, a manifest
      that fits its section. No other limit can be reached. */
  ghost predicate Buildable(p: Platform, b: Build) {
    && |b.metadata| <= MAX_HEADER && ParseHeader(p.headers, b.metadata).Ok?
    && ValidInventory(p.tables, b.sources)
    && ValidKeyId(b.keyId)
    && |p.manifestJson(BuiltManifest(p, b))| <= MAX_ENCRYPTED_MANIFEST - AEAD_TAG_BYTES
  }

  lemma HeaderFacts(p: Platform, metadata: seq<Byte>)
    requires Lawful(p) && ParseHeader(p.headers, metadata).Ok?
    ensures metadata != [] && ValidId(ParseHeader(p.headers, metadata).value.archiveId)
  {
  }

  lemma SectionSizes(p: Platform, b: Build)
    requires Lawful(p) && ValidInventory(p.tables, b.sources)
    ensures var records := RecordsOf(BuiltChunks(b));
      && ValidRecords(records)
      && |BuiltChunks(b)| <= MAX_CHUNK_COUNT
      && EncryptIndex(p, BuildKeys(b), Idx1Bytes(records)) == Ok(SealedIndex(p, b))
      && 24 <= |SealedIndex(p, b)| <= MAX_ENCRYPTED_INDEX
      && |DataSection(p, b)| == CipherOffset(BuiltChunks(b), |records|) <= MAX_ENCRYPTED_DATA
  {
    SectionBudget(b.sources);
    ChunkBudget(b.sources);
    SealedLength(p, BuildKeys(b), BuiltChunks(b), |BuiltChunks(b)|);
  }

  /** Every buildable request has admissible section lengths. */
  lemma BuildableLengths(p: Platform, b: Build)
    requires Lawful(p) && Buildable(p, b)
    ensures ValidLengths(BuiltLengths(p, b))
  {
    SectionSizes(p, b);
    HeaderFacts(p, b.metadata);
    var lengths, json := BuiltLengths(p, b), p.manifestJson(BuiltManifest(p, b));
    assert json != [] && |SealedManifest(p, b)| == |json| + AEAD_TAG_BYTES;
    forall i | 0 <= i < 5 ensures Fits(lengths[i], 0 + i) {
      assert i == 0 || i == 1 || i == 2 || i == 3 || i == 4;
    }
  }

  function SignatureBlockBytes(b: Build, signature: seq<Byte>): seq<Byte>
    requires ValidKeyId(b.keyId)
  {
    EncodePrefix(SignaturePrefix(b.keyId)) + signature
  }

  function FinalSections(p: Platform, b: Build, signature: seq<Byte>): (sections: seq<seq<Byte>>)
    requires ValidKeyId(b.keyId)
    ensures |sections| == 5
  {
    BuiltSections(p, b) + [SignatureBlockBytes(b, signature)]
  }

  /** Appending the 64 signature bytes completes the container. */
  lemma PendingCompletes(p: Platform, b: Build, signature: seq<Byte>)
    requires ValidKeyId(b.keyId) && |signature| == 64
    ensures Lengths(FinalSections(p, b, signature)) == BuiltLengths(p, b)
    ensures PendingBytes(p, b) + signature == ContainerBytes(FinalSections(p, b, signature))
  {
    var s := FinalSections(p, b, signature);
    assert Lengths(s) == BuiltLengths(p, b);
    FlattenFive(s);
    Regrouped(PreludeBytes(BuiltLengths(p, b)), s[0], s[1], s[2], s[3], EncodePrefix(SignaturePrefix(b.keyId)), signature);
  }

  lemma Regrouped(prelude: seq<Byte>, a: seq<Byte>, b: seq<Byte>, c: seq<Byte>, d: seq<Byte>,
                  prefix: seq<Byte>, signature: seq<Byte>)
    ensures (prelude + a + b + c + d + prefix) + signature == prelude + (a + b + c + d + (prefix + signature))
  {
  }

  lemma FlattenFive(s: seq<seq<Byte>>)
    requires |s| == 5
    ensures Flatten(s) == s[0] + s[1] + s[2] + s[3] + s[4]
  {
    assert s[1..][1..] == s[2..] && s[2..][1..] == s[3..] && s[3..][1..] == s[4..] && s[4..][1..] == [];
    assert Flatten(s[4..]) == s[4] + [];
    assert Flatten(s[3..]) == s[3] + Flatten(s[4..]);
    assert Flatten(s[2..]) == s[2] + Flatten(s[3..]);
    assert Flatten(s[1..]) == s[1] + Flatten(s[2..]);
    assert Flatten(s) == s[0] + Flatten(s[1..]);
  }

  // ----- preparing -----

  /** The validated JSON of a manifest. */
  method ManifestToJcs(p: Platform, m: Manifest, archiveId: string, chunkCount: nat) returns (r: Result<seq<Byte>>)
    requires Lawful(p) && AllNormalized(p.tables, m.files)
    ensures r.Ok? <==> ValidManifest(p.tables, m, archiveId, chunkCount)
    ensures r.Ok? ==> r.value == p.manifestJson(m)
  {
    var _ :- Validate(p.tables, m, archiveId, chunkCount);
    return Ok(p.manifestJson(m));
  }

  datatype Plan = Plan(manifest: Manifest, records: seq<IndexRecord>, encryptedManifest: seq<Byte>,
                       encryptedIndex: seq<Byte>, prefix: SignaturePrefix, prelude: seq<Byte>)

  ghost predicate IsPlan(p: Platform, b: Build, plan: Plan) {
    && plan.manifest == BuiltManifest(p, b)
    && plan.records == RecordsOf(BuiltChunks(b))
    && plan.encryptedManifest == SealedManifest(p, b)
    && plan.encryptedIndex == SealedIndex(p, b)
    && plan.prefix == SignaturePrefix(b.keyId)
    && plan.prelude == PreludeBytes(BuiltLengths(p, b))
  }

  method SumCiphertexts(records: seq<IndexRecord>) returns (total: nat)
    ensures total == DataOffset(records, |records|)
  {
    total := INDEX_DATA_PREFIX_BYTES;
    var i := 0;
    while i < |records|
      invariant 0 <= i <= |records| && total == DataOffset(records, i)
    {
      total := total + records[i].ciphertextLength;
      i := i + 1;
    }
  }

  /** Describes and seals the manifest. */
  method SealManifest(p: Platform, b: Build, header: PublicHeader)
    returns (r: Result<(Manifest, seq<IndexRecord>, seq<Byte>)>)
    requires Lawful(p) && ParseHeader(p.headers, b.metadata) == Ok(header)
    requires ValidInventory(p.tables, b.sources)
    ensures r.Ok? <==> |p.manifestJson(BuiltManifest(p, b))| <= MAX_ENCRYPTED_MANIFEST - AEAD_TAG_BYTES
    ensures r.Ok? ==> r.value == (BuiltManifest(p, b), RecordsOf(BuiltChunks(b)), SealedManifest(p, b))
  {
    HeaderFacts(p, b.metadata);
    BuiltManifestIsValid(p, header.archiveId, b.sources);
    var built, json;
    built := BuildManifestAndRecords(p, header, b.sources);
    match built {
      case Err(e) => return Err(e);
      case Ok(_) =>
    }
    json := ManifestToJcs(p, built.value.0, header.archiveId, |built.value.1|);
    match json {
      case Err(e) => return Err(e);
      case Ok(_) =>
    }
    var encrypted :- EncryptManifest(p, BuildKeys(b), json.value);
    return Ok((built.value.0, built.value.1, encrypted));
  }

  /** Lays out the index and the prelude. */
  method LayOut(p: Platform, b: Build, manifest: Manifest, records: seq<IndexRecord>, encryptedManifest: seq<Byte>)
    returns (r: Result<Plan>)
    requires Lawful(p) && |b.metadata| <= MAX_HEADER && ParseHeader(p.headers, b.metadata).Ok?
    requires ValidInventory(p.tables, b.sources)
    requires |p.manifestJson(BuiltManifest(p, b))| <= MAX_ENCRYPTED_MANIFEST - AEAD_TAG_BYTES
    requires manifest == BuiltManifest(p, b) && records == RecordsOf(BuiltChunks(b))
    requires encryptedManifest == SealedManifest(p, b)
    ensures r.Ok? <==> ValidKeyId(b.keyId)
    ensures r.Ok? ==> IsPlan(p, b, r.value)
  {
    SectionSizes(p, b);
    var index := EncodeIdx1(records);
    match index {
      case Err(e) => return Err(e);
      case Ok(_) =>
    }
    var encryptedIndex := EncryptIndex(p, BuildKeys(b), index.value);
    match encryptedIndex {
      case Err(e) => return Err(e);
      case Ok(_) =>
    }
    var dataLength := SumCiphertexts(records);
    RecordedOffset(BuiltChunks(b), |records|, |records|);
    var prefix :- NewSignaturePrefix(b.keyId);
    BuildableLengths(p, b);
    var prelude := EncodePrelude([|b.metadata|, |encryptedManifest|, |encryptedIndex.value|, dataLength, SIGNATURE_BLOCK_BYTES]);
    match prelude {
      case Err(e) => return Err(e);
      case Ok(_) =>
    }
    return Ok(Plan(manifest, records, encryptedManifest, encryptedIndex.value, prefix, prelude.value));
  }

  lemma PendingSize(p: Platform, b: Build)
    requires Lawful(p) && Buildable(p, b)
    ensures |PendingBytes(p, b)| + 64 == PRELUDE_LEN + Total(BuiltLengths(p, b)) <= MAX_FINALIZED_ARCHIVE_BYTES
    ensures DeclaredSize(PreludeBytes(BuiltLengths(p, b))) == Ok(|PendingBytes(p, b)| + 64)
  {
    var lengths := BuiltLengths(p, b);
    BuildableLengths(p, b);
    CapsFitContainer(lengths);
    PendingCompletes(p, b, Zeros(64));
    FlattenLength(FinalSections(p, b, Zeros(64)));
    DeclaredByPrelude(lengths);
  }

  lemma DeclaredByPrelude(lengths: seq<nat>)
    requires ValidLengths(lengths)
    ensures DeclaredSize(PreludeBytes(lengths)) == Ok(PRELUDE_LEN + Total(lengths))
  {
    var prelude := PreludeBytes(lengths);
    assert prelude[..96] == prelude;
    PreludeAccepted(prelude, PRELUDE_LEN + Total(lengths), lengths);
    DeclaredSizeIsTheFileSize(prelude, PRELUDE_LEN + Total(lengths));
  }

  /** Writes the pending file and hashes it. A buildable request never fails here. */
  method WritePending(p: Platform, b: Build, plan: Plan) returns (r: Result<(seq<Byte>, nat, seq<Byte>)>)
    requires Lawful(p) && Buildable(p, b) && IsPlan(p, b, plan)
    ensures r == Ok((PendingBytes(p, b), |PendingBytes(p, b)| + 64, p.sha256(PendingBytes(p, b))))
  {
    PendingSize(p, b);
    SectionSizes(p, b);
    BuiltStreamAccepts(p, ArchiveIdOf(p, b), b.sources);
    var declared := DeclaredSize(plan.prelude);
    var streamed := StreamEncryptedChunks(p, b.sources, plan.manifest, plan.records, BuildKeys(b));
    match streamed {
      case Err(e) => return Err(e);
      case Ok(_) =>
    }
    var pending := plan.prelude + b.metadata + plan.encryptedManifest + plan.encryptedIndex
      + (DAT1 + ToLE(|plan.records|, 4) + streamed.value) + EncodePrefix(plan.prefix);
    var file := new InputFile(pending);
    assert pending[..|pending|] == pending;
    var digest := DigestPrefix(p, file, |pending|);
    match (declared, digest) {
      case (Ok(size), Ok(hash)) =>
        if size > MAX_FINALIZED_ARCHIVE_BYTES {
          return Err(LimitExceeded);
        }
        if |pending| + 64 != size {
          return Err(OutOfBounds);
        }
        return Ok((pending, size, hash));
      case _ => return Err(OutOfBounds);
    }
  }

  /** The inventory of a build holds exactly the files of the directory. */
  ghost predicate Requested(rules: Rules, entries: seq<Entry>, b: Build) {
    && Acceptable(rules, "", entries)
    && EntriesCount(entries) <= MAX_SOURCE_ENTRIES
    && multiset(b.sources) == multiset(Leaves(rules, "", entries))
  }

  lemma RequestedIsDiscovered(rules: Rules, entries: seq<Entry>, b: Build)
    requires Requested(rules, entries, b) && ValidInventory(rules.tables, b.sources)
    ensures AcceptableLeaves(rules.tables, Leaves(rules, "", entries))
  {
    SamePaths(b.sources, Leaves(rules, "", entries));
    SameContentBytes(b.sources, Leaves(rules, "", entries));
    Sequences.SameLength(b.sources, Leaves(rules, "", entries));
  }

  /** From the request to the pending bytes: succeeds exactly on buildable requests. */
  method PrepareBytes(p: Platform, rules: Rules, entries: seq<Entry>, contentKey: seq<Byte>, metadata: seq<Byte>, keyId: seq<Byte>)
    returns (r: Result<(seq<Byte>, nat, seq<Byte>)>, b: Build)
    requires Lawful(p) && rules.tables == p.tables
    ensures b == Build(contentKey, metadata, b.sources, keyId)
    ensures r.Ok? ==> Requested(rules, entries, b) && Buildable(p, b)
    ensures r.Ok? ==> r.value == (PendingBytes(p, b), |PendingBytes(p, b)| + 64, p.sha256(PendingBytes(p, b)))
    ensures forall other: Build {:trigger Buildable(p, other)} ::
      other == Build(contentKey, metadata, other.sources, keyId) && Requested(rules, entries, other) && Buildable(p, other) ==>
        r.Ok? && b == other
  {
    b := Build(contentKey, metadata, [], keyId);
    if |metadata| > MAX_HEADER {
      return Err(LimitExceeded), b;
    }
    var header := ParseHeader(p.headers, metadata);
    if header.Err? {
      return Err(header.error), b;
    }
    forall other: Build | Requested(rules, entries, other) && Buildable(p, other)
      ensures AcceptableLeaves(p.tables, Leaves(rules, "", entries))
    {
      RequestedIsDiscovered(rules, entries, other);
    }
    var sources := Discover(rules, entries, MAX_SOURCE_ENTRIES);
    if sources.Err? {
      return Err(sources.error), b;
    }
    b := Build(contentKey, metadata, sources.value, keyId);
    forall other: Build | Requested(rules, entries, other) && ValidInventory(p.tables, other.sources)
      ensures other.sources == sources.value
    {
      OrderedListUnique(other.sources, sources.value);
    }
    r := SealAndWrite(p, b, header.value);
  }

  method SealAndWrite(p: Platform, b: Build, header: PublicHeader) returns (r: Result<(seq<Byte>, nat, seq<Byte>)>)
    requires Lawful(p) && |b.metadata| <= MAX_HEADER && ParseHeader(p.headers, b.metadata) == Ok(header)
    requires ValidInventory(p.tables, b.sources)
    ensures r.Ok? <==> Buildable(p, b)
    ensures r.Ok? ==> r.value == (PendingBytes(p, b), |PendingBytes(p, b)| + 64, p.sha256(PendingBytes(p, b)))
  {
    var sealedManifest :- SealManifest(p, b, header);
    var plan :- LayOut(p, b, sealedManifest.0, sealedManifest.1, sealedManifest.2);
    r := WritePending(p, b, plan);
  }

  // ----- the finished archive -----

  /** A signature that holds for the digest finishes the archive: the result parses and
      verifies, so nothing between signing and publishing can refuse it. */
  lemma SignedBuildIsAccepted(p: Platform, b: Build, publicKey: seq<Byte>, signature: seq<Byte>)
    requires Lawful(p) && Buildable(p, b) && |signature| == 64 && p.validKey(publicKey)
    requires p.signatureHolds(publicKey, p.sha256(PendingBytes(p, b)), signature)
    ensures var bytes := PendingBytes(p, b) + signature;
      && ParseStructure(p.headers, bytes)
         == Ok(UnverifiedContainer(ParseHeader(p.headers, b.metadata).value, FinalSections(p, b, signature)))
      && SignedBy(p, bytes, b.keyId, publicKey)
  {
    BuiltParses(p, b, signature);
    BlockRoundTrip(SignatureBlock(SignaturePrefix(b.keyId), signature));
    BlockAtEnd(PendingBytes(p, b), EncodePrefix(SignaturePrefix(b.keyId)), signature);
  }

  lemma BuiltParses(p: Platform, b: Build, signature: seq<Byte>)
    requires Lawful(p) && Buildable(p, b) && |signature| == 64
    ensures ParseStructure(p.headers, PendingBytes(p, b) + signature)
         == Ok(UnverifiedContainer(ParseHeader(p.headers, b.metadata).value, FinalSections(p, b, signature)))
  {
    BuildableLengths(p, b);
    PendingCompletes(p, b, signature);
    ParseAfterSerialize(p.headers, ParseHeader(p.headers, b.metadata).value, FinalSections(p, b, signature));
  }

  lemma BlockAtEnd(pending: seq<Byte>, prefix: seq<Byte>, signature: seq<Byte>)
    requires |prefix| == SIGNATURE_PREFIX_BYTES && |signature| == 64
    requires |pending| >= 40 && pending[|pending| - 40..] == prefix
    ensures var bytes := pending + signature;
      bytes[|bytes| - 104..] == prefix + signature && bytes[..|bytes| - 64] == pending
  {
  }

  // ----- the two files of a build -----

  /** A file on disk: which object it is, when it was last written, and
      its content. */
  datatype DiskFile = DiskFile(inode: nat, modified: nat, content: seq<Byte>)

  /** What is remembered of a file to recognise it again. */
  datatype FileIdentity = FileIdentity(inode: nat, modified: nat, length: nat)

  function IdentityOf(file: DiskFile): FileIdentity {
    FileIdentity(file.inode, file.modified, |file.content|)
  }

  /** The pending path and the output path of one build. Others may change both files
      between the operations. `now` numbers writes and new objects. */
  class Folder {
    var pending: Option<DiskFile>
    var output: Option<DiskFile>
    var now: nat

    constructor ()
      ensures pending == None && output == None
    {
      pending, output, now := None, None, 0;
    }

    predicate Free()
      reads this
    {
      pending == None && output == None
    }

    method CreatePending(content: seq<Byte>)
      modifies this
      ensures output == old(output) && pending.Some? && pending.value.content == content
    {
      pending := Some(DiskFile(now, now, content));
      now := now + 1;
    }

    method AppendPending(more: seq<Byte>)
      requires pending.Some?
      modifies this
      ensures output == old(output) && pending.Some? && pending.value.inode == old(pending).value.inode
      ensures pending.value.content == old(pending).value.content + more
    {
      pending := Some(DiskFile(pending.value.inode, now, pending.value.content + more));
      now := now + 1;
    }

    /** Removes the pending file unless another object took its place. */
    method RemovePendingIfSame(identity: FileIdentity)
      modifies this
      ensures output == old(output)
      ensures pending == if old(pending).Some? && old(pending).value.inode == identity.inode then None else old(pending)
    {
      if pending.Some? && pending.value.inode == identity.inode {
        pending := None;
      }
    }
  }

  /** A pending archive that waits for its signature. */
  class PendingBuild {
    const platform: Platform
    const folder: Folder
    const signingDigest: seq<Byte>
    const fileCount: nat
    const sizeBytes: nat
    const signingKeyId: seq<Byte>
    const publicKey: seq<Byte>
    var pendingIdentity: FileIdentity

    constructor (p: Platform, f: Folder, digest: seq<Byte>, files: nat, size: nat, keyId: seq<Byte>, key: seq<Byte>,
                 identity: FileIdentity)
      ensures platform == p && folder == f && signingDigest == digest && fileCount == files && sizeBytes == size
      ensures signingKeyId == keyId && publicKey == key && pendingIdentity == identity
    {
      platform, folder, signingDigest, fileCount, sizeBytes := p, f, digest, files, size;
      signingKeyId, publicKey, pendingIdentity := keyId, key, identity;
    }

    /** What the pending bytes and the signature must satisfy to be published. */
    ghost predicate Publishable(pending: seq<Byte>, signature: seq<Byte>) {
      && platform.signatureHolds(publicKey, signingDigest, signature)
      && |pending| + 64 == sizeBytes && platform.sha256(pending) == signingDigest
      && ParseStructure(platform.headers, pending + signature).Ok?
      && SignedBy(platform, pending + signature, signingKeyId, publicKey)
    }

    /** The pending file is still the one that was prepared. */
    predicate Untouched()
      reads this, folder
    {
      folder.pending.Some? && IdentityOf(folder.pending.value) == pendingIdentity
    }

    /** Publishes the pending bytes followed by the signature under the output path, or
        leaves that path alone. Without a success the pending file is removed unless
        another object took its place. */
    method AcceptSignature(signature: seq<Byte>) returns (r: Result<string>)
      requires |signature| == 64
      modifies this, folder
      ensures r.Ok? <==>
        old(Untouched()) && old(folder.output) == None && Publishable(old(folder.pending).value.content, signature)
      ensures r.Ok? ==>
        var bytes := old(folder.pending).value.content + signature;
        && folder.output.Some? && folder.output.value.content == bytes && r.value == Digest(platform, bytes)
        && folder.output.value.inode == old(pendingIdentity.inode) && folder.pending == None
      ensures r.Err? ==> folder.output == old(folder.output)
      ensures r.Err? ==>
        folder.pending == if old(folder.pending).Some? && old(folder.pending).value.inode == old(pendingIdentity).inode
                          then None else old(folder.pending)
    {
      r := CheckAndSign(signature);
      if r.Ok? && folder.output.Some? {
        r := Err(Io);
      }
      if r.Err? {
        folder.RemovePendingIfSame(pendingIdentity);
        return r;
      }
      folder.output := folder.pending;
      folder.pending := None;
    }

    /** Everything up to the publication: the signed file in place of the pending one. */
    method CheckAndSign(signature: seq<Byte>) returns (r: Result<string>)
      requires |signature| == 64
      modifies this, folder
      ensures r.Ok? <==> old(Untouched()) && Publishable(old(folder.pending).value.content, signature)
      ensures folder.output == old(folder.output)
      ensures pendingIdentity.inode == old(pendingIdentity).inode
      ensures r.Err? ==>
        folder.pending == old(folder.pending)
        || (old(Untouched()) && folder.pending.Some? && folder.pending.value.inode == pendingIdentity.inode)
      ensures r.Ok? ==>
        var bytes := old(folder.pending).value.content + signature;
        && folder.pending.Some? && folder.pending.value.content == bytes && r.value == Digest(platform, bytes)
        && folder.pending.value.inode == pendingIdentity.inode
    {
      if !platform.signatureHolds(publicKey, signingDigest, signature) {
        return Err(SignatureFailure);
      }
      if folder.pending == None {
        return Err(Io);
      }
      if sizeBytes < 64 {
        return Err(OutOfBounds);
      }
      var content := folder.pending.value.content;
      var file := new InputFile(content);
      var current :- DigestPrefix(platform, file, sizeBytes - 64);
      if |content| != sizeBytes - 64 {
        return Err(IntegrityMismatch);
      }
      assert content[..|content|] == content;
      if current != signingDigest || IdentityOf(folder.pending.value) != pendingIdentity {
        return Err(IntegrityMismatch);
      }
      folder.AppendPending(signature);
      pendingIdentity := IdentityOf(folder.pending.value);
      var completed := new InputFile(folder.pending.value.content);
      var verified :- VerifyFinalized(platform, completed, signingKeyId, publicKey);
      return Ok(verified.archiveFingerprint);
    }
  }

  /** The object waits for the signature of a build whose pending file was just written. */
  ghost predicate Fresh(p: Platform, b: Build, publicKey: seq<Byte>, pending: PendingBuild)
    requires ValidKeyId(b.keyId)
    reads pending, pending.folder
  {
    && pending.platform == p && pending.signingKeyId == b.keyId && pending.publicKey == publicKey
    && pending.signingDigest == p.sha256(PendingBytes(p, b)) && pending.sizeBytes == |PendingBytes(p, b)| + 64
    && pending.fileCount == |b.sources| && pending.Untouched() && pending.folder.output == None
    && pending.folder.pending.value.content == PendingBytes(p, b)
  }

  /** A request that passes every check in front of the public key. */
  ghost predicate Writable(p: Platform, rules: Rules, entries: seq<Entry>, b: Build) {
    Requested(rules, entries, b) && Buildable(p, b)
  }

  /** Prepares exactly the buildable requests for free paths with a well-formed public key.
      A malformed key is noticed last: the pending file of a buildable request is then
      left behind. */
  method Prepare(p: Platform, folder: Folder, rules: Rules, entries: seq<Entry>, contentKey: seq<Byte>,
                 metadata: seq<Byte>, keyId: seq<Byte>, publicKey: seq<Byte>)
    returns (r: Result<PendingBuild>, ghost b: Build)
    requires Lawful(p) && rules.tables == p.tables
    modifies folder
    ensures b == Build(contentKey, metadata, b.sources, keyId)
    ensures forall other: Build {:trigger Writable(p, rules, entries, other)} ::
      other == Build(contentKey, metadata, other.sources, keyId) && Writable(p, rules, entries, other) && old(folder.Free()) ==>
        b == other
    ensures r.Ok? <==> old(folder.Free()) && Writable(p, rules, entries, b) && p.validKey(publicKey)
    ensures r.Ok? ==> fresh(r.value) && r.value.folder == folder && Fresh(p, b, publicKey, r.value)
    ensures !old(folder.Free()) ==> r == Err(InvalidBuilderInput)
    ensures folder.output == old(folder.output)
    ensures if old(folder.Free()) && Writable(p, rules, entries, b)
      then folder.pending.Some? && folder.pending.value.content == PendingBytes(p, b)
      else folder.pending == old(folder.pending)
  {
    b := Build(contentKey, metadata, [], keyId);
    if folder.output.Some? || folder.pending.Some? {
      return Err(InvalidBuilderInput), b;
    }
    var written, build := PrepareBytes(p, rules, entries, contentKey, metadata, keyId);
    b := build;
    if written.Err? {
      return Err(written.error), b;
    }
    folder.CreatePending(written.value.0);
    if !p.validKey(publicKey) {
      return Err(SignatureFailure), b;
    }
    var pending := new PendingBuild(p, folder, written.value.2, |build.sources|, written.value.1, keyId, publicKey,
                                    IdentityOf(folder.pending.value));
    return Ok(pending), b;
  }

  /** Repeating a refused request with the right key never succeeds: the pending file of the
      first attempt is in its way exactly when the request was buildable. */
  method PrepareAgain(p: Platform, folder: Folder, rules: Rules, entries: seq<Entry>, contentKey: seq<Byte>,
                      metadata: seq<Byte>, keyId: seq<Byte>, malformedKey: seq<Byte>, publicKey: seq<Byte>)
    returns (first: Result<PendingBuild>, second: Result<PendingBuild>, ghost b: Build)
    requires Lawful(p) && rules.tables == p.tables
    requires !p.validKey(malformedKey) && p.validKey(publicKey) && folder.Free()
    modifies folder
    ensures first.Err? && second.Err?
    ensures folder.pending.Some? <==> Writable(p, rules, entries, b)
    ensures folder.pending.Some? ==> second == Err(InvalidBuilderInput)
    ensures forall other: Build {:trigger Writable(p, rules, entries, other)} ::
      other == Build(contentKey, metadata, other.sources, keyId) && Writable(p, rules, entries, other) ==> b == other
  {
    first, b := Prepare(p, folder, rules, entries, contentKey, metadata, keyId, malformedKey);
    ghost var again;
    second, again := Prepare(p, folder, rules, entries, contentKey, metadata, keyId, publicKey);
  }

  /** On an untouched pending file and a free output path the signature alone decides. */
  lemma UntouchedIsPublishable(p: Platform, b: Build, publicKey: seq<Byte>, pending: PendingBuild, signature: seq<Byte>)
    requires Lawful(p) && Buildable(p, b) && p.validKey(publicKey) && |signature| == 64
    requires Fresh(p, b, publicKey, pending)
    ensures pending.Publishable(PendingBytes(p, b), signature)
      <==> p.signatureHolds(publicKey, p.sha256(PendingBytes(p, b)), signature)
  {
    if p.signatureHolds(publicKey, p.sha256(PendingBytes(p, b)), signature) {
      SignedBuildIsAccepted(p, b, publicKey, signature);
    }
  }
}
