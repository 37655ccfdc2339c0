/** What the archive core takes from elsewhere (ciphers, digests, signatures, JSON and
    Unicode tables), and the three kinds of sealed payload built on the cipher.
    The sealing functions model crates/solarch-core/src/production_crypto.rs. */
module Platforms {
  import opened Outcomes
  import opened Results
  import opened Bytes
  import opened Paths
  import opened Manifests
  import opened Container
  import opened ProductionCrypto

  /** Keys derived from the archive content key and the exact header bytes. */
  datatype Keys = Keys(contentKey: seq<Byte>, headerBytes: seq<Byte>)

  /** What a sealed payload is bound to: nonce and associated data. */
  datatype Slot = ManifestSlot(length: nat) | IndexSlot(length: nat) | ChunkSlot(id: nat, length: nat)

  datatype Platform = Platform(
    tables: Tables,
    headers: HeaderCodec,
    manifestJson: Manifest -> seq<Byte>,
    manifestFrom: seq<Byte> -> Option<Manifest>,
    seal: (Keys, Slot, seq<Byte>) -> seq<Byte>,
    unseal: (Keys, Slot, seq<Byte>) -> Option<seq<Byte>>,
    sha256: seq<Byte> -> seq<Byte>,
    validKey: seq<Byte> -> bool,
    signatureHolds: (seq<Byte>, seq<Byte>, seq<Byte>) -> bool)

  /** Authenticated encryption undoes itself and adds a 16-byte tag. */
  ghost predicate LawfulCipher(p: Platform) {
    && (forall k: Keys, s: Slot, m: seq<Byte> {:trigger p.seal(k, s, m)} ::
          |p.seal(k, s, m)| == |m| + AEAD_TAG_BYTES && p.unseal(k, s, p.seal(k, s, m)) == Some(m))
    && (forall k: Keys, s: Slot, c: seq<Byte> {:trigger p.unseal(k, s, c)} ::
          p.unseal(k, s, c).Some? ==> |c| == |p.unseal(k, s, c).value| + AEAD_TAG_BYTES)
  }

  /** Numbers small enough for exact JSON integers. */
  ghost predicate Representable(t: Tables, m: Manifest) {
    && AllNormalized(t, m.files)
    && forall i :: 0 <= i < |m.files| ==>
         m.files[i].sizeBytes <= MAX_FILE_SIZE_BYTES && forall c :: c in m.files[i].chunks ==> c < MAX_CHUNKS
  }

  /** Manifests survive JSON, and what JSON yields has normalized paths. */
  ghost predicate LawfulManifests(p: Platform) {
    && (forall m: Manifest {:trigger p.manifestJson(m)} ::
          p.manifestJson(m) != [] && (Representable(p.tables, m) ==> p.manifestFrom(p.manifestJson(m)) == Some(m)))
    && (forall b: seq<Byte> {:trigger p.manifestFrom(b)} ::
          p.manifestFrom(b).Some? ==> AllNormalized(p.tables, p.manifestFrom(b).value.files))
  }

  ghost predicate Lawful(p: Platform) {
    && LawfulTables(p.tables) && LawfulHeaders(p.headers)
    && LawfulCipher(p) && LawfulManifests(p)
    && forall b: seq<Byte> {:trigger p.sha256(b)} :: |p.sha256(b)| == 32
  }

  /** A recorded hash or fingerprint agrees with the content exactly if it spells the hash
      of the content. */
  lemma DigestSpells(p: Platform, bytes: seq<Byte>, hex: string)
    ensures hex == Digest(p, bytes) <==> Spells(hex, p.sha256(bytes))
  {
    OneSpelling(hex, p.sha256(bytes));
  }

  function Digest(p: Platform, bytes: seq<Byte>): string {
    LowercaseHex(p.sha256(bytes))
  }

  // ----- sealed payloads -----

  function EncryptManifest(p: Platform, keys: Keys, plaintext: seq<Byte>): Result<seq<Byte>> {
    if plaintext == [] || |plaintext| > MAX_ENCRYPTED_MANIFEST - AEAD_TAG_BYTES then Err(LimitExceeded)
    else Ok(p.seal(keys, ManifestSlot(|plaintext|), plaintext))
  }

  function DecryptManifest(p: Platform, keys: Keys, ciphertext: seq<Byte>): Result<seq<Byte>> {
    if |ciphertext| <= AEAD_TAG_BYTES || |ciphertext| > MAX_ENCRYPTED_MANIFEST then Err(InvalidManifest)
    else Unsealed(p.unseal(keys, ManifestSlot(|ciphertext| - AEAD_TAG_BYTES), ciphertext))
  }

  function EncryptIndex(p: Platform, keys: Keys, plaintext: seq<Byte>): Result<seq<Byte>> {
    if |plaintext| < INDEX_DATA_PREFIX_BYTES || |plaintext| > MAX_ENCRYPTED_INDEX_BYTES - AEAD_TAG_BYTES
    then Err(LimitExceeded)
    else Ok(p.seal(keys, IndexSlot(|plaintext|), plaintext))
  }

  function DecryptIndex(p: Platform, keys: Keys, ciphertext: seq<Byte>): Result<seq<Byte>> {
    if |ciphertext| < INDEX_DATA_PREFIX_BYTES + AEAD_TAG_BYTES || |ciphertext| > MAX_ENCRYPTED_INDEX_BYTES
    then Err(InvalidChunkMetadata)
    else Unsealed(p.unseal(keys, IndexSlot(|ciphertext| - AEAD_TAG_BYTES), ciphertext))
  }

  function EncryptChunk(p: Platform, keys: Keys, id: nat, plaintext: seq<Byte>): Result<seq<Byte>> {
    if id >= MAX_CHUNK_COUNT || plaintext == [] || |plaintext| > CHUNK_PLAINTEXT_BYTES then Err(LimitExceeded)
    else Ok(p.seal(keys, ChunkSlot(id, |plaintext|), plaintext))
  }

  function DecryptChunk(p: Platform, keys: Keys, id: nat, plaintextLength: nat, ciphertext: seq<Byte>): Result<seq<Byte>> {
    if id >= MAX_CHUNK_COUNT || plaintextLength == 0 || plaintextLength > CHUNK_PLAINTEXT_BYTES
       || |ciphertext| != plaintextLength + AEAD_TAG_BYTES
    then Err(InvalidChunkMetadata)
    else Unsealed(p.unseal(keys, ChunkSlot(id, plaintextLength), ciphertext))
  }

  function Unsealed(outcome: Option<seq<Byte>>): Result<seq<Byte>> {
    match outcome case Some(plaintext) => Ok(plaintext) case None => Err(AuthenticationFailed)
  }

  lemma ManifestPayload(p: Platform, keys: Keys, plaintext: seq<Byte>)
    requires Lawful(p) && EncryptManifest(p, keys, plaintext).Ok?
    ensures DecryptManifest(p, keys, EncryptManifest(p, keys, plaintext).value) == Ok(plaintext)
  {
  }

  lemma IndexPayload(p: Platform, keys: Keys, plaintext: seq<Byte>)
    requires Lawful(p) && EncryptIndex(p, keys, plaintext).Ok?
    ensures DecryptIndex(p, keys, EncryptIndex(p, keys, plaintext).value) == Ok(plaintext)
  {
  }

  lemma ChunkPayload(p: Platform, keys: Keys, id: nat, plaintext: seq<Byte>)
    requires Lawful(p) && EncryptChunk(p, keys, id, plaintext).Ok?
    ensures DecryptChunk(p, keys, id, |plaintext|, EncryptChunk(p, keys, id, plaintext).value) == Ok(plaintext)
  {
  }

  /** Once the sizes fit, the tag is the only thing that can fail, and what comes out
      has the recorded length. */
  lemma ChunkOutcome(p: Platform, keys: Keys, id: nat, length: nat, ciphertext: seq<Byte>)
    requires Lawful(p) && id < MAX_CHUNK_COUNT && 0 < length <= CHUNK_PLAINTEXT_BYTES
    requires |ciphertext| == length + AEAD_TAG_BYTES
    ensures match DecryptChunk(p, keys, id, length, ciphertext)
            case Ok(plaintext) => |plaintext| == length
            case Err(e) => e == AuthenticationFailed
  {
  }
}
