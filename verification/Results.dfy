/** Error values of the archive core. */
module Results {
  import opened Outcomes

  datatype Error =
    | AuthenticationFailed
    | DuplicateNormalizedPath
    | IntegrityMismatch
    | Io
    | InvalidBuilderInput
    | InvalidChunkMetadata
    | InvalidHeader
    | InvalidMagic
    | InvalidManifest
    | LimitExceeded
    | OutOfBounds
    | SignatureFailure
    | TruncatedInput
    | UnsafePath
    | UnsupportedFileType
    | UnsupportedVersion

  type Result<T> = Outcome<T, Error>
}
