/** Device licences: bindings and the offline time window.
    Models validate_and_unwrap of crates/solarch-core/src/license.rs. */
module Licenses {
  import opened Outcomes
  import opened Viewer

  const OFFLINE_WINDOW_SECONDS: int := 259_200
  /** The last second of the year 9999, the latest parsable timestamp. */
  const MAX_TIMESTAMP: int := 253_402_300_799

  type Timestamp = t: int | 0 <= t <= MAX_TIMESTAMP

  /** The signed fields that validation reads; timestamps are `None` when malformed. */
  datatype Payload = Payload(
    licenseId: string,
    archiveId: string,
    fingerprint: string,
    device: string,
    requestNonce: seq<int>,
    issuedAt: Option<Timestamp>,
    offlineValidUntil: Option<Timestamp>)

  /** `authentic` stands for the schema, trust and signature checks, and `unwrapped` for
      what HPKE makes of the wrapped key. */
  datatype Grant = Grant(payload: Payload, authentic: bool, unwrapped: Option<seq<int>>)

  datatype Context = Context(archiveId: string, fingerprint: string, device: string, privateDevice: string, now: int)

  /** Three days from the instant of issue, the last second excluded. */
  predicate InWindow(p: Payload, now: int) {
    && p.issuedAt.Some? && p.offlineValidUntil.Some?
    && p.issuedAt.value <= now < p.offlineValidUntil.value == p.issuedAt.value + 259_200
  }

  /** Issued by a trusted key for this archive and for the device whose private key this is. */
  predicate IssuedFor(g: Grant, c: Context) {
    && g.authentic
    && g.payload.device == c.device == c.privateDevice
    && g.payload.archiveId == c.archiveId && g.payload.fingerprint == c.fingerprint
  }

  /** Succeeds exactly on authentic grants for this archive and device that answer the
      outstanding request, if there is one, within their window, and yields their key. */
  function ValidateAndUnwrap(g: Grant, c: Context, expectedNonce: Option<seq<int>>): (r: Result<seq<int>>)
    ensures r.Ok? <==>
      && IssuedFor(g, c) && InWindow(g.payload, c.now) && g.unwrapped.Some?
      && (expectedNonce.Some? ==> g.payload.requestNonce == expectedNonce.value)
    ensures r.Ok? ==> Some(r.value) == g.unwrapped
    ensures r == Err(Expired) ==> IssuedFor(g, c) && !InWindow(g.payload, c.now)
  {
    var _ :- Need(g.authentic, InvalidLicense);
    var _ :- Need(g.payload.device == c.device && c.privateDevice == c.device, WrongDevice);
    var _ :- Need(g.payload.archiveId == c.archiveId && g.payload.fingerprint == c.fingerprint, InvalidLicense);
    var _ :- Need(expectedNonce.None? || g.payload.requestNonce == expectedNonce.value, InvalidLicense);
    var _ :- Need(g.payload.issuedAt.Some? && g.payload.offlineValidUntil.Some?, InvalidLicense);
    var issuedAt: int, deadline: int := g.payload.issuedAt.value, g.payload.offlineValidUntil.value;
    var _ :- Need(deadline == issuedAt + OFFLINE_WINDOW_SECONDS, InvalidLicense);
    var _ :- Need(issuedAt <= c.now < deadline, Expired);
    if g.unwrapped.Some? then Ok(g.unwrapped.value) else Err(InvalidLicense)
  }

  function ValidateFresh(g: Grant, c: Context, nonce: seq<int>): Result<seq<int>> {
    ValidateAndUnwrap(g, c, Some(nonce))
  }

  function ValidateCached(g: Grant, c: Context): Result<seq<int>> {
    ValidateAndUnwrap(g, c, None)
  }

  /** Revalidation before an online refresh looks at the instant of issue instead of the
      current time. */
  function ValidateForRefresh(g: Grant, c: Context): Result<string> {
    var _ :- Need(g.payload.issuedAt.Some?, InvalidLicense);
    var _ :- ValidateAndUnwrap(g, c.(now := g.payload.issuedAt.value), None);
    Ok(g.payload.licenseId)
  }

  /** A grant can be refreshed exactly when there is some time at which it opens the
      archive offline; refreshing drops the time check and nothing else. */
  lemma RefreshDropsOnlyTheTime(g: Grant, c: Context)
    ensures ValidateForRefresh(g, c).Ok? <==> exists now :: ValidateCached(g, c.(now := now)).Ok?
  {
    if ValidateForRefresh(g, c).Ok? {
      assert ValidateCached(g, c.(now := g.payload.issuedAt.value)).Ok?;
    }
  }

  /** A fresh response is held to everything a cached grant is, and to the nonce of the
      outstanding request. */
  lemma FreshIsCachedAndAnswers(g: Grant, c: Context, nonce: seq<int>)
    ensures ValidateFresh(g, c, nonce).Ok? <==> ValidateCached(g, c).Ok? && g.payload.requestNonce == nonce
  {
  }
}
