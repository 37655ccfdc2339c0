/** Errors and results of the desktop viewer (apps/viewer/src-tauri/src/error.rs). */
module Viewer {
  import opened Outcomes

  datatype ViewerError =
    | ArchiveBlocked
    | BackendUnavailable
    | CorruptSecureStore
    | DeviceLimitReached
    | Expired
    | Internal
    | InvalidArchive
    | InvalidInput
    | InvalidLicense
    | LicenseRevoked
    | LicenseStorage
    | MetadataMismatch
    | MissingIntentCredential
    | MissingRefreshCredential
    | PaymentExpired
    | PaymentFailed
    | PaymentStorage
    | RefreshRequired
    | RendererClosed
    | RendererError
    | RendererLimit
    | SecureStoreUnavailable
    | UnsupportedFile
    | UntrustedArchive
    | WrongDevice

  type Result<T> = Outcome<T, ViewerError>

  /** A keyring call may fail before or after it took effect. */
  datatype Fault = Works | FailsClean | FailsDirty
}
