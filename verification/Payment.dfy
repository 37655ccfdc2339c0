/** The payment protocol of the viewer: what each operation does to memory and to the
    durable stores, step by step, when any store operation may fail.
    Models apps/viewer/src-tauri/src/payment_service.rs, payment_repository.rs and the
    saving half of license_repository.rs. */
module Payments {
  import opened Outcomes
  import opened Viewer
  import opened Licenses
  import opened Rollback

  // ----- data -----

  datatype Status = Created | Pending | AwaitingFinality | Confirmed

  /** Amounts and timestamps are `None` when they do not parse. */
  datatype ActiveIntent = ActiveIntent(
    id: string,
    archiveId: string,
    fingerprint: string,
    device: string,
    amount: Option<nat>,
    currency: string,
    payUrl: string,
    createdAt: Option<int>,
    expiresAt: Option<int>,
    status: Status)

  datatype Metadata = Metadata(archiveId: string, fingerprint: string, price: Option<nat>)
  datatype Identity = Identity(archiveId: string, fingerprint: string)
  datatype PaymentView = PaymentView(intent: ActiveIntent)

  datatype SecretKey = IntentSecret(intentId: string) | RefreshToken(name: string)

  /** The stores that outlive the process. */
  datatype Durable = Durable(
    intents: map<string, ActiveIntent>,
    secrets: map<SecretKey, string>,
    licenses: map<string, Grant>)

  /** Format checks that live elsewhere. */
  datatype Rules = Rules(
    validId: string -> bool,
    validToken: string -> bool,
    validDevice: string -> bool,
    validPayUrl: (string, string) -> bool)

  /** Memory, disk, and every state the disk went through since the operation began. */
  datatype State = State(metadata: Option<Metadata>, active: Option<ActiveIntent>, disk: Durable, trace: seq<Durable>)

  function RefreshKey(archiveId: string, licenseId: string): SecretKey {
    RefreshToken(archiveId + "\0" + licenseId)
  }

  predicate IntentMatches(rules: Rules, intent: ActiveIntent, metadata: Metadata, device: string) {
    && rules.validId(intent.id)
    && intent.archiveId == metadata.archiveId && intent.fingerprint == metadata.fingerprint
    && intent.device == device && rules.validDevice(intent.device)
    && intent.amount.Some? && intent.amount == metadata.price && intent.currency == "USDC"
    && intent.createdAt.Some? && intent.expiresAt == Some(intent.createdAt.value + 1800)
    && rules.validPayUrl(intent.payUrl, intent.id)
  }

  // ----- store operations -----

  /** A keyring call and whether reading back confirms it; file replacement is atomic. */
  datatype Checked = Checked(fault: Fault, readsBack: bool)
  datatype Discarding = Discarding(delete: Checked, clears: bool)

  function Commit(s: State, d: Durable): State {
    s.(disk := d, trace := s.trace + [d])
  }

  function WithSecret(d: Durable, key: SecretKey, value: string): Durable {
    d.(secrets := d.secrets[key := value])
  }

  function WithoutSecret(d: Durable, key: SecretKey): Durable {
    d.(secrets := d.secrets - {key})
  }

  function WriteVerified(s: State, key: SecretKey, value: string, c: Checked): (State, Result<()>) {
    var written := if c.fault == FailsClean then s else Commit(s, WithSecret(s.disk, key, value));
    (written, if c.fault == Works && c.readsBack then Ok(()) else Err(SecureStoreUnavailable))
  }

  function DeleteVerified(s: State, key: SecretKey, c: Checked): (State, Result<()>) {
    var deleted := if c.fault == FailsClean then s else Commit(s, WithoutSecret(s.disk, key));
    (deleted, if c.fault == Works && c.readsBack then Ok(()) else Err(SecureStoreUnavailable))
  }

  function SaveIntent(s: State, intent: ActiveIntent, works: bool): (State, Result<()>) {
    if works then (Commit(s, s.disk.(intents := s.disk.intents[intent.archiveId := intent])), Ok(()))
    else (s, Err(PaymentStorage))
  }

  function ClearIntent(s: State, archiveId: string, works: bool): (State, Result<()>) {
    if works then (Commit(s, s.disk.(intents := s.disk.intents - {archiveId})), Ok(()))
    else (s, Err(PaymentStorage))
  }

  function LoadIntent(s: State, archiveId: string, works: bool): Result<Option<ActiveIntent>> {
    if !works then Err(PaymentStorage)
    else if archiveId in s.disk.intents then
      if s.disk.intents[archiveId].archiveId == archiveId then Ok(Some(s.disk.intents[archiveId])) else Err(PaymentStorage)
    else Ok(None)
  }

  function SaveLicense(s: State, grant: Grant, works: bool): (State, Result<()>) {
    if works then (Commit(s, s.disk.(licenses := s.disk.licenses[grant.payload.archiveId := grant])), Ok(()))
    else (s, Err(LicenseStorage))
  }

  // ----- shared steps -----

  /** The archive switch takes only the runtime lock, so it can fall between any two
      steps of an operation. */
  function Switched(s: State, happens: bool): State {
    if happens then s.(metadata := None, active := None) else s
  }

  function Discard(s: State, intent: ActiveIntent, f: Discarding): (State, Result<()>) {
    var (deleted, r) := DeleteVerified(s.(active := None), IntentSecret(intent.id), f.delete);
    if r.Err? then (deleted, r) else ClearIntent(deleted, intent.archiveId, f.clears)
  }

  predicate SecretStored(rules: Rules, d: Durable, intent: ActiveIntent) {
    IntentSecret(intent.id) in d.secrets && rules.validToken(d.secrets[IntentSecret(intent.id)])
  }

  /** The stored secret of an intent; an intent without one is discarded. */
  function ResumeSecret(rules: Rules, s: State, intent: ActiveIntent, readable: bool, f: Discarding)
    : (State, Result<Option<string>>)
  {
    if !readable then (s, Err(SecureStoreUnavailable))
    else if SecretStored(rules, s.disk, intent) then (s, Ok(Some(s.disk.secrets[IntentSecret(intent.id)])))
    else
      var (discarded, r) := Discard(s, intent, f);
      (discarded, if r.Err? then Err(r.error) else Ok(None))
  }

  /** Best-effort removal of a completed intent: the record goes only after the secret. */
  function Cleanup(s: State, intent: ActiveIntent, f: Discarding): State {
    Discard(s, intent, f).0
  }

  // ----- operations -----

  datatype CheckInputs = CheckInputs(
    archive: Result<Identity>, response: Result<Metadata>, device: Result<string>,
    loads: bool, readable: bool, discard: Discarding, switched: bool)

  function CheckMetadata(rules: Rules, s: State, i: CheckInputs): (State, Result<()>) {
    if i.archive.Err? then (s, Err(i.archive.error))
    else if i.response.Err? then (s, Err(i.response.error))
    else if i.response.value.archiveId != i.archive.value.archiveId
            || i.response.value.fingerprint != i.archive.value.fingerprint then (s, Err(MetadataMismatch))
    else if i.device.Err? then (s, Err(i.device.error))
    else
      var metadata := i.response.value;
      match LoadIntent(s, i.archive.value.archiveId, i.loads)
      case Err(e) => (s, Err(e))
      case Ok(None) => (Switched(s, i.switched).(metadata := Some(metadata), active := None), Ok(()))
      case Ok(Some(intent)) =>
        if !IntentMatches(rules, intent, metadata, i.device.value) then (s, Err(PaymentStorage))
        else
          var (resumed, secret) := ResumeSecret(rules, s, intent, i.readable, i.discard);
          match secret
          case Err(e) => (resumed, Err(e))
          case Ok(found) =>
            (Switched(resumed, i.switched).(metadata := Some(metadata), active := if found.Some? then Some(intent) else None),
             Ok(()))
  }

  datatype IntentResponse = IntentResponse(intent: ActiveIntent, clientSecret: string)

  datatype PrepareInputs = PrepareInputs(
    archive: Result<Identity>, device: Result<string>, readable: bool, discard: Discarding,
    response: Result<IntentResponse>, write: Checked, saves: bool, undo: Fault,
    switchedFirst: bool, switchedLast: bool)

  function PreparePayment(rules: Rules, s: State, i: PrepareInputs): (State, Result<PaymentView>) {
    if i.archive.Err? then (s, Err(i.archive.error))
    else if i.device.Err? then (s, Err(i.device.error))
    else if s.metadata.None? then (s, Err(MetadataMismatch))
    else
      var cleared := Switched(s, i.switchedFirst);
      match s.active
      case None => CreateIntent(rules, cleared, s.metadata.value, i)
      case Some(existing) =>
        var (resumed, secret) := ResumeSecret(rules, cleared, existing, i.readable, i.discard);
        match secret
        case Err(e) => (resumed, Err(e))
        case Ok(Some(_)) => (resumed, Ok(PaymentView(existing)))
        case Ok(None) => CreateIntent(rules, resumed, s.metadata.value, i)
  }

  function CreateIntent(rules: Rules, s: State, metadata: Metadata, i: PrepareInputs): (State, Result<PaymentView>)
    requires i.archive.Ok? && i.device.Ok?
  {
    if metadata.archiveId != i.archive.value.archiveId then (s, Err(MetadataMismatch))
    else if i.response.Err? then (s, Err(i.response.error))
    else if !IntentMatches(rules, i.response.value.intent, metadata, i.device.value)
            || !rules.validToken(i.response.value.clientSecret) then (s, Err(MetadataMismatch))
    else StoreIntent(s, i.response.value.intent.(status := Created), i.response.value.clientSecret, i)
  }

  /** The secret is written and read back before the record that refers to it. */
  function StoreIntent(s: State, intent: ActiveIntent, secret: string, i: PrepareInputs): (State, Result<PaymentView>) {
    var (written, w) := WriteVerified(s, IntentSecret(intent.id), secret, i.write);
    if w.Err? then (written, Err(w.error))
    else
      var (saved, r) := SaveIntent(written, intent, i.saves);
      if r.Err? then (DeleteVerified(saved, IntentSecret(intent.id), Checked(i.undo, true)).0, Err(r.error))
      else (Switched(saved, i.switchedLast).(active := Some(intent)), Ok(PaymentView(intent)))
  }

  function CurrentPayment(rules: Rules, s: State, readable: bool, f: Discarding): (State, Result<Option<PaymentView>>) {
    match s.active
    case None => (s, Ok(None))
    case Some(intent) =>
      var (resumed, secret) := ResumeSecret(rules, s, intent, readable, f);
      match secret
      case Err(e) => (resumed, Err(e))
      case Ok(found) => (resumed, Ok(if found.Some? then Some(PaymentView(intent)) else None))
  }

  datatype VerifyReply = Replied(status: Status) | Malformed | Rejected(error: ViewerError, terminal: bool)

  datatype VerifyInputs = VerifyInputs(
    readable: bool, discard: Discarding, reply: VerifyReply, discardRejected: Discarding, saves: bool,
    switchedFirst: bool, switchedLast: bool)

  function VerifyPayment(rules: Rules, s: State, i: VerifyInputs): (State, Result<PaymentView>) {
    match s.active
    case None => (s, Err(PaymentStorage))
    case Some(intent) =>
      var (resumed, secret) := ResumeSecret(rules, Switched(s, i.switchedFirst), intent, i.readable, i.discard);
      match secret
      case Err(e) => (resumed, Err(e))
      case Ok(None) => (resumed, Err(MissingIntentCredential))
      case Ok(Some(_)) => RecordReply(resumed, intent, i)
  }

  function RecordReply(s: State, intent: ActiveIntent, i: VerifyInputs): (State, Result<PaymentView>) {
    match i.reply
    case Malformed => (s, Err(PaymentFailed))
    case Rejected(error, terminal) =>
      if !terminal then (s, Err(error))
      else
        var (discarded, r) := Discard(s, intent, i.discardRejected);
        (discarded, Err(if r.Err? then r.error else error))
    case Replied(status) =>
      var updated := intent.(status := status);
      var (saved, r) := SaveIntent(s, updated, i.saves);
      if r.Err? then (saved, Err(r.error))
      else (Switched(saved, i.switchedLast).(active := Some(updated)), Ok(PaymentView(updated)))
  }

  datatype ActivateInputs = ActivateInputs(
    archive: Result<Identity>, device: Result<string>, readable: bool, discard: Discarding,
    nonce: Result<seq<int>>, response: Result<(Grant, string)>, clock: Result<ClockSample>,
    tokenWrite: Checked, tokenUndo: Checked, licenseSaves: bool, clockReset: Result<()>, install: Result<()>,
    cleanup: Discarding, switched: bool)

  function Activate(rules: Rules, s: State, i: ActivateInputs): (State, Result<ClockSample>) {
    if s.active.None? || s.active.value.status != Confirmed then (s, Err(PaymentFailed))
    else
      var intent, cleared := s.active.value, Switched(s, i.switched);
      if i.archive.Err? then (cleared, Err(i.archive.error))
      else if i.device.Err? then (cleared, Err(i.device.error))
      else
        var (resumed, secret) := ResumeSecret(rules, cleared, intent, i.readable, i.discard);
        match secret
        case Err(e) => (resumed, Err(e))
        case Ok(None) => (resumed, Err(MissingIntentCredential))
        case Ok(Some(_)) =>
          match FreshGrant(i)
          case Err(e) => (resumed, Err(e))
          case Ok((grant, token)) => StoreActivation(resumed, intent, grant, token, i)
  }

  /** The backend's answer, validated against the session's archive and this device. */
  function FreshGrant(i: ActivateInputs): Result<(Grant, string)>
    requires i.archive.Ok? && i.device.Ok?
  {
    var nonce :- i.nonce;
    var response :- i.response;
    var clock :- i.clock;
    var _ :- Need(InTimestampRange(clock.utc), RefreshRequired);
    var device, archive := i.device.value, i.archive.value;
    var _ :- ValidateFresh(response.0, Context(archive.archiveId, archive.fingerprint, device, device, clock.utc), nonce);
    Ok(response)
  }

  /** Token, licence, clock, session, and only then the clean-up of the intent. */
  function StoreActivation(s: State, intent: ActiveIntent, grant: Grant, token: string, i: ActivateInputs)
    : (State, Result<ClockSample>)
    requires i.archive.Ok? && i.clock.Ok?
  {
    var key := RefreshKey(i.archive.value.archiveId, grant.payload.licenseId);
    var (written, w) := WriteVerified(s, key, token, i.tokenWrite);
    if w.Err? then (DeleteVerified(written, key, i.tokenUndo).0, Err(w.error))
    else
      var (saved, r) := SaveLicense(written, grant, i.licenseSaves);
      if r.Err? then (saved, Err(r.error))
      else if i.clockReset.Err? then (saved, Err(i.clockReset.error))
      else if i.install.Err? then (saved, Err(i.install.error))
      else (Cleanup(saved, intent, i.cleanup), Ok(i.clock.value))
  }

  /** The grant is authentic, was issued for this archive and this device, answers this
      request, and `now` lies in its three days. */
  predicate Fits(g: Grant, archive: Identity, device: string, nonce: seq<int>, now: int) {
    && g.authentic && g.unwrapped.Some?
    && g.payload.device == device && g.payload.requestNonce == nonce
    && g.payload.archiveId == archive.archiveId && g.payload.fingerprint == archive.fingerprint
    && g.payload.issuedAt.Some? && g.payload.offlineValidUntil.Some?
    && g.payload.issuedAt.value <= now < g.payload.offlineValidUntil.value == g.payload.issuedAt.value + 259_200
  }

  datatype AfterUnlockInputs = AfterUnlockInputs(
    archive: Identity, device: string, loads: bool, cleanup: Discarding)

  /** Runs when an archive was unlocked by whatever licence is stored. */
  function CleanupAfterUnlock(rules: Rules, s: State, i: AfterUnlockInputs): State {
    match LoadIntent(s, i.archive.archiveId, i.loads)
    case Err(_) => s
    case Ok(None) => s
    case Ok(Some(intent)) =>
      if intent.status == Confirmed && intent.fingerprint == i.archive.fingerprint && intent.device == i.device
         && rules.validId(intent.id)
      then Cleanup(s, intent, i.cleanup)
      else s
  }

  datatype RefreshReply = Granted(grant: Grant) | Refused(error: ViewerError, terminal: bool)

  datatype RefreshInputs = RefreshInputs(
    archive: Result<Identity>, device: Result<string>, loads: bool, readsToken: bool, nonce: Result<seq<int>>,
    reply: RefreshReply, tokenDelete: Checked, clock: Result<ClockSample>, licenseSaves: bool,
    clockReset: Result<()>, install: Result<()>)

  function Refresh(rules: Rules, s: State, i: RefreshInputs): (State, Result<ClockSample>) {
    if i.archive.Err? then (s, Err(i.archive.error))
    else if i.device.Err? then (s, Err(i.device.error))
    else
      match RefreshIdentity(s.disk, i)
      case Err(e) => (s, Err(e))
      case Ok(licenseId) =>
        var key := RefreshKey(i.archive.value.archiveId, licenseId);
        if !i.readsToken then (s, Err(SecureStoreUnavailable))
        else if key !in s.disk.secrets then (s, Err(MissingRefreshCredential))
        else if !rules.validToken(s.disk.secrets[key]) then (s, Err(CorruptSecureStore))
        else if i.nonce.Err? then (s, Err(i.nonce.error))
        else
          match i.reply
          case Refused(error, terminal) =>
            if !terminal then (s, Err(error))
            else
              var (deleted, r) := DeleteVerified(s, key, i.tokenDelete);
              (deleted, Err(if r.Err? then r.error else error))
          case Granted(grant) => StoreRefreshed(s, grant, licenseId, i)
  }

  function RefreshIdentity(d: Durable, i: RefreshInputs): Result<string>
    requires i.archive.Ok? && i.device.Ok?
  {
    var archive, device := i.archive.value, i.device.value;
    var _ :- Need(i.loads, LicenseStorage);
    var _ :- Need(archive.archiveId in d.licenses, InvalidLicense);
    ValidateForRefresh(d.licenses[archive.archiveId], Context(archive.archiveId, archive.fingerprint, device, device, 0))
  }

  function StoreRefreshed(s: State, grant: Grant, licenseId: string, i: RefreshInputs): (State, Result<ClockSample>)
    requires i.archive.Ok? && i.device.Ok? && i.nonce.Ok?
  {
    if i.clock.Err? then (s, Err(i.clock.error))
    else if !InTimestampRange(i.clock.value.utc) then (s, Err(RefreshRequired))
    else
      var archive, device := i.archive.value, i.device.value;
      var context := Context(archive.archiveId, archive.fingerprint, device, device, i.clock.value.utc);
      match ValidateFresh(grant, context, i.nonce.value)
      case Err(e) => (s, Err(e))
      case Ok(_) =>
        if grant.payload.licenseId != licenseId then (s, Err(InvalidLicense))
        else
          var (saved, r) := SaveLicense(s, grant, i.licenseSaves);
          if r.Err? then (saved, Err(r.error))
          else if i.clockReset.Err? then (saved, Err(i.clockReset.error))
          else if i.install.Err? then (saved, Err(i.install.error))
          else (saved, Ok(i.clock.value))
  }

  // ----- memory follows disk -----

  /** An intent in memory is the record saved for its archive. */
  predicate Follows(s: State) {
    s.active.Some? ==>
      s.active.value.archiveId in s.disk.intents && s.disk.intents[s.active.value.archiveId] == s.active.value
  }

  datatype Op =
    | Check(check: CheckInputs)
    | Prepare(prepare: PrepareInputs)
    | Current(readable: bool, discard: Discarding)
    | Verify(verify: VerifyInputs)
    | ActivateIntent(activate: ActivateInputs)
    | RefreshLicense(refresh: RefreshInputs)
    | AfterUnlock(afterUnlock: AfterUnlockInputs)
    | Open(clock: ClockState, open: OpenInputs)
    | SwitchArchive

  function Step(rules: Rules, before: State, op: Op): State {
    var s := before.(trace := []);
    match op
    case Check(i) => CheckMetadata(rules, s, i).0
    case Prepare(i) => PreparePayment(rules, s, i).0
    case Current(readable, f) => CurrentPayment(rules, s, readable, f).0
    case Verify(i) => VerifyPayment(rules, s, i).0
    case ActivateIntent(i) => Activate(rules, s, i).0
    case RefreshLicense(i) => Refresh(rules, s, i).0
    case AfterUnlock(i) => CleanupAfterUnlock(rules, s, i)
    case Open(clock, o) => OpenOffline(rules, s, clock, o).0
    case SwitchArchive => Switched(s, true)
  }

  /** Operations complete, or the process dies after any of their store writes. */
  datatype Event = Complete(op: Op) | Crash(op: Op, at: nat)

  function Next(rules: Rules, s: State, e: Event): State {
    match e
    case Complete(op) => Step(rules, s, op)
    case Crash(op, at) =>
      var states := Step(rules, s, op).trace;
      State(None, None, if at < |states| then states[at] else s.disk, [])
  }

  function Run(rules: Rules, s: State, events: seq<Event>): State
    decreases |events|
  {
    if events == [] then s else Run(rules, Next(rules, s, events[0]), events[1..])
  }

  lemma ResumeKeeps(rules: Rules, s: State, intent: ActiveIntent, readable: bool, f: Discarding)
    requires Follows(s)
    ensures var (after, secret) := ResumeSecret(rules, s, intent, readable, f);
      && Follows(after)
      && (secret.Ok? && secret.value.Some? ==> after == s && SecretStored(rules, s.disk, intent))
  {
  }

  lemma CheckKeeps(rules: Rules, s: State, i: CheckInputs)
    requires Follows(s)
    ensures Follows(CheckMetadata(rules, s, i).0)
  {
    if i.archive.Ok? && LoadIntent(s, i.archive.value.archiveId, i.loads).Ok? {
      var found := LoadIntent(s, i.archive.value.archiveId, i.loads).value;
      if found.Some? { ResumeKeeps(rules, s, found.value, i.readable, i.discard); }
    }
  }

  lemma CreateKeeps(rules: Rules, s: State, metadata: Metadata, i: PrepareInputs)
    requires Follows(s) && i.archive.Ok? && i.device.Ok?
    ensures Follows(CreateIntent(rules, s, metadata, i).0)
  {
  }

  lemma PrepareKeeps(rules: Rules, s: State, i: PrepareInputs)
    requires Follows(s)
    ensures Follows(PreparePayment(rules, s, i).0)
  {
    var cleared := Switched(s, i.switchedFirst);
    if i.archive.Ok? && i.device.Ok? && s.metadata.Some? {
      CreateKeeps(rules, cleared, s.metadata.value, i);
      if s.active.Some? {
        ResumeKeeps(rules, cleared, s.active.value, i.readable, i.discard);
        CreateKeeps(rules, ResumeSecret(rules, cleared, s.active.value, i.readable, i.discard).0, s.metadata.value, i);
      }
    }
  }

  lemma VerifyKeeps(rules: Rules, s: State, i: VerifyInputs)
    requires Follows(s)
    ensures Follows(VerifyPayment(rules, s, i).0)
  {
    if s.active.Some? {
      ResumeKeeps(rules, Switched(s, i.switchedFirst), s.active.value, i.readable, i.discard);
    }
  }

  lemma ActivateKeeps(rules: Rules, s: State, i: ActivateInputs)
    requires Follows(s)
    ensures Follows(Activate(rules, s, i).0)
  {
    if s.active.Some? {
      ResumeKeeps(rules, Switched(s, i.switched), s.active.value, i.readable, i.discard);
    }
  }

  lemma StepKeeps(rules: Rules, s: State, op: Op)
    requires Follows(s)
    ensures Follows(Step(rules, s, op))
  {
    var start := s.(trace := []);
    match op
    case Check(i) => CheckKeeps(rules, start, i);
    case Prepare(i) => PrepareKeeps(rules, start, i);
    case Current(readable, f) =>
      if s.active.Some? { ResumeKeeps(rules, start, s.active.value, readable, f); }
    case Verify(i) => VerifyKeeps(rules, start, i);
    case ActivateIntent(i) => ActivateKeeps(rules, start, i);
    case _ =>
  }

  /** Over every run of operations, archive switches in their midst, failing stores and
      crashes at any write, the intent in memory is the one on disk. */
  lemma {:induction false} MemoryFollowsDisk(rules: Rules, s: State, events: seq<Event>)
    requires Follows(s)
    ensures Follows(Run(rules, s, events))
    decreases |events|
  {
    if events != [] {
      if events[0].Complete? { StepKeeps(rules, s, events[0].op); }
      MemoryFollowsDisk(rules, Next(rules, s, events[0]), events[1..]);
    }
  }

  // ----- a payment view needs its secret -----

  lemma PrepareViewHasSecret(rules: Rules, s: State, i: PrepareInputs)
    requires PreparePayment(rules, s, i).1.Ok?
    ensures var (after, view) := PreparePayment(rules, s, i); SecretStored(rules, after.disk, view.value.intent)
  {
  }

  lemma CurrentViewHasSecret(rules: Rules, s: State, readable: bool, f: Discarding)
    requires CurrentPayment(rules, s, readable, f).1.Ok? && CurrentPayment(rules, s, readable, f).1.value.Some?
    ensures var (after, view) := CurrentPayment(rules, s, readable, f);
            after == s && view.value == Some(PaymentView(s.active.value)) && SecretStored(rules, after.disk, s.active.value)
  {
  }

  lemma VerifyViewHasSecret(rules: Rules, s: State, i: VerifyInputs)
    requires VerifyPayment(rules, s, i).1.Ok?
    ensures var (after, view) := VerifyPayment(rules, s, i);
      && SecretStored(rules, after.disk, view.value.intent)
      && after.disk.intents[view.value.intent.archiveId] == view.value.intent
  {
  }

  /** A prepared payment survives a restart: checking the same metadata on the same
      device brings the same intent back. */
  lemma PreparedResumes(rules: Rules, s: State, i: PrepareInputs, c: CheckInputs)
    requires s.active.None? && s.metadata.Some? && PreparePayment(rules, s, i).1.Ok?
    requires c.archive == i.archive && c.response == Ok(s.metadata.value) && c.device == i.device
    requires c.archive.value.fingerprint == s.metadata.value.fingerprint && c.loads && c.readable
    ensures var (after, view) := PreparePayment(rules, s, i);
      var restarted := State(None, None, after.disk, []);
      && CheckMetadata(rules, restarted, c).1 == Ok(())
      && CheckMetadata(rules, restarted, c).0.active == Some(view.value.intent)
  {
  }

  // ----- activation -----

  /** The confirmed payment can still be activated. */
  predicate Resumable(rules: Rules, d: Durable, intent: ActiveIntent) {
    && intent.status == Confirmed
    && intent.archiveId in d.intents && d.intents[intent.archiveId] == intent
    && SecretStored(rules, d, intent)
  }

  /** The licence of this archive and its refresh token are both on disk. */
  predicate Activated(d: Durable, archiveId: string) {
    && archiveId in d.licenses && d.licenses[archiveId].payload.archiveId == archiveId
    && RefreshKey(archiveId, d.licenses[archiveId].payload.licenseId) in d.secrets
  }

  predicate Safe(rules: Rules, d: Durable, intent: ActiveIntent, archive: Result<Identity>) {
    Resumable(rules, d, intent) || (archive.Ok? && Activated(d, archive.value.archiveId))
  }

  ghost predicate AllSafe(rules: Rules, states: seq<Durable>, intent: ActiveIntent, archive: Result<Identity>) {
    forall k :: 0 <= k < |states| ==> Safe(rules, states[k], intent, archive)
  }

  lemma StoringIsSafe(rules: Rules, s: State, intent: ActiveIntent, grant: Grant, token: string, i: ActivateInputs)
    requires i.archive.Ok? && i.clock.Ok? && grant.payload.archiveId == i.archive.value.archiveId
    requires Resumable(rules, s.disk, intent) && s.trace == []
    ensures var (after, r) := StoreActivation(s, intent, grant, token, i);
      && AllSafe(rules, after.trace, intent, i.archive)
      && (r.Err? ==> Resumable(rules, after.disk, intent))
      && (r.Ok? ==> after.active == None && after.disk.licenses[i.archive.value.archiveId] == grant
                    && RefreshKey(i.archive.value.archiveId, grant.payload.licenseId) in after.disk.secrets
                    && after.disk.secrets[RefreshKey(i.archive.value.archiveId, grant.payload.licenseId)] == token)
  {
    var key := RefreshKey(i.archive.value.archiveId, grant.payload.licenseId);
    var (written, w) := WriteVerified(s, key, token, i.tokenWrite);
    OtherSecretsDoNotMatter(rules, s.disk, intent, key, token);
    OtherSecretsDoNotMatter(rules, written.disk, intent, key, token);
    if w.Ok? {
      var (saved, r) := SaveLicense(written, grant, i.licenseSaves);
      if r.Ok? { CleanupIsSafe(rules, saved, intent, grant, i); }
    }
  }

  lemma OtherSecretsDoNotMatter(rules: Rules, d: Durable, intent: ActiveIntent, key: SecretKey, value: string)
    requires key.RefreshToken?
    ensures Resumable(rules, d, intent) ==> Resumable(rules, WithSecret(d, key, value), intent)
    ensures Resumable(rules, d, intent) ==> Resumable(rules, WithoutSecret(d, key), intent)
  {
  }

  /** Once licence and token are on disk, removing the intent loses nothing. */
  lemma CleanupIsSafe(rules: Rules, s: State, intent: ActiveIntent, grant: Grant, i: ActivateInputs)
    requires i.archive.Ok? && AllSafe(rules, s.trace, intent, i.archive)
    requires Activated(s.disk, i.archive.value.archiveId)
    ensures var after := Cleanup(s, intent, i.cleanup);
      && AllSafe(rules, after.trace, intent, i.archive) && after.active == None
      && after.disk.licenses == s.disk.licenses
      && forall key: SecretKey :: key.RefreshToken? && key in s.disk.secrets ==>
           key in after.disk.secrets && after.disk.secrets[key] == s.disk.secrets[key]
  {
  }

  /** Activation is crash-safe. Whatever fails and wherever the process dies, the disk
      always holds the confirmed intent with its secret, or the licence with its refresh
      token; a failed activation can be tried again. */
  lemma ActivationIsCrashSafe(rules: Rules, s: State, i: ActivateInputs)
    requires s.active.Some? && Resumable(rules, s.disk, s.active.value) && s.trace == []
    ensures var (after, r) := Activate(rules, s, i);
      && AllSafe(rules, after.trace, s.active.value, i.archive)
      && (r.Err? ==> Resumable(rules, after.disk, s.active.value))
      && (r.Ok? ==> after.active == None && Activated(after.disk, i.archive.value.archiveId))
  {
    var intent, cleared := s.active.value, Switched(s, i.switched);
    if i.archive.Ok? && i.device.Ok? && FreshGrant(i).Ok? {
      var (grant, token) := FreshGrant(i).value;
      StoringIsSafe(rules, cleared, intent, grant, token, i);
    }
  }

  /** What the buyer of an intent holds on to: the intent, or the licence of the archive it
      was paid for. */
  predicate KeepsPurchase(rules: Rules, d: Durable, intent: ActiveIntent) {
    Resumable(rules, d, intent) || Activated(d, intent.archiveId)
  }

  /** In a session of the intent's own archive no disk state of an activation loses the
      purchase. */
  lemma OwnArchiveKeepsPurchase(rules: Rules, s: State, i: ActivateInputs)
    requires s.active.Some? && Resumable(rules, s.disk, s.active.value) && s.trace == []
    requires i.archive.Ok? ==> i.archive.value.archiveId == s.active.value.archiveId
    ensures var (after, r) := Activate(rules, s, i);
      && KeepsPurchase(rules, after.disk, s.active.value)
      && forall k :: 0 <= k < |after.trace| ==> KeepsPurchase(rules, after.trace[k], s.active.value)
  {
    ActivationIsCrashSafe(rules, s, i);
    var after := Activate(rules, s, i).0;
    forall k | 0 <= k < |after.trace| ensures KeepsPurchase(rules, after.trace[k], s.active.value) {
      assert Safe(rules, after.trace[k], s.active.value, i.archive);
    }
  }

  /** The session may have moved to another archive, and activation does not compare. A
      successful activation then keeps the purchase exactly when its clean-up could not
      touch the secret or the other archive was activated before. */
  lemma ActivationInAnotherSession(rules: Rules, s: State, i: ActivateInputs)
    requires s.active.Some? && Resumable(rules, s.disk, s.active.value)
    requires Activate(rules, s, i).1.Ok?
    ensures var (after, intent) := (Activate(rules, s, i).0, s.active.value);
      var (grant, token) := FreshGrant(i).value;
      var key := RefreshKey(i.archive.value.archiveId, grant.payload.licenseId);
      KeepsPurchase(rules, after.disk, intent)
      <==> || i.archive.value.archiveId == intent.archiveId || i.cleanup.delete.fault == FailsClean
           || Activated(WithSecret(s.disk, key, token), intent.archiveId)
  {
    var intent := s.active.value;
    var (grant, token) := FreshGrant(i).value;
    var key := RefreshKey(i.archive.value.archiveId, grant.payload.licenseId);
    var licensed := SaveLicense(WriteVerified(Switched(s, i.switched), key, token, i.tokenWrite).0, grant, true).0;
    assert Activate(rules, s, i).0 == Cleanup(licensed, intent, i.cleanup);
    CleanupKeepsPurchase(rules, licensed, intent, i.cleanup);
  }

  /** Removing an intent keeps the purchase if the secret stays or the archive is activated. */
  lemma CleanupKeepsPurchase(rules: Rules, s: State, intent: ActiveIntent, f: Discarding)
    requires Resumable(rules, s.disk, intent)
    ensures KeepsPurchase(rules, Cleanup(s, intent, f).disk, intent)
      <==> f.delete.fault == FailsClean || Activated(s.disk, intent.archiveId)
  {
  }

  /** Such an activation: a session of archive "b" spends the intent paid for archive "a". */
  lemma PurchaseSpentElsewhere() returns (rules: Rules, s: State, i: ActivateInputs)
    ensures s.active.Some? && Follows(s) && Resumable(rules, s.disk, s.active.value)
    ensures Activate(rules, s, i).1.Ok? && !KeepsPurchase(rules, Activate(rules, s, i).0.disk, s.active.value)
  {
    rules := Rules(_ => true, _ => true, _ => true, (_, _) => true);
    var intent := PaidIntent();
    s := State(None, Some(intent), Durable(map["a" := intent], map[IntentSecret("i") := "t"], map[]), []);
    i := PlainActivation(Identity("b", "g"), 0, 1).(switched := true);
    ActivationInAnotherSession(rules, s, i);
  }

  // ----- opening an archive that has a licence -----

  datatype OpenInputs = OpenInputs(
    archive: Identity, device: string, deviceReady: bool, readable: bool, sample: ClockSample, io: Storage,
    installs: bool, loads: bool, cleanup: Discarding)

  /** The offline restore for what the disk holds. */
  function RestoreOf(d: Durable, o: OpenInputs): Attempt {
    var present := o.archive.archiveId in d.licenses;
    Attempt(o.sample, o.io,
            if o.readable then Ok(present) else Err(LicenseStorage),
            if !o.readable then Err(LicenseStorage) else Ok(if present then Some(d.licenses[o.archive.archiveId]) else None),
            Context(o.archive.archiveId, o.archive.fingerprint, o.device, o.device, o.sample.utc), o.deviceReady, o.installs)
  }

  /** Opening forgets the runtime state, tries the stored licence, and only after an unlock
      cleans up a completed intent. */
  function OpenOffline(rules: Rules, s: State, clock: ClockState, o: OpenInputs): (State, ClockState, Result<bool>) {
    var (next, restored) := RestoreLocalLicense(clock, RestoreOf(s.disk, o));
    var switched := Switched(s, true);
    (if restored != Ok(true) then switched
     else CleanupAfterUnlock(rules, switched, AfterUnlockInputs(o.archive, o.device, o.loads, o.cleanup)),
     next, restored)
  }

  // ----- cleaning up after an unlock -----

  /** The clean-up that follows an unlock looks at the intent but not at the refresh
      token. Whatever fails in it and wherever the process dies, it keeps the buyer's
      rights complete if and only if the refresh token of the stored licence is there or
      the deletion of the secret never took effect. */
  lemma CleanupNeedsTheToken(rules: Rules, s: State, i: AfterUnlockInputs, intent: ActiveIntent)
    requires Resumable(rules, s.disk, intent) && rules.validId(intent.id) && s.trace == []
    requires intent.archiveId == i.archive.archiveId && intent.fingerprint == i.archive.fingerprint && intent.device == i.device
    requires i.archive.archiveId in s.disk.licenses && i.loads
    requires s.disk.licenses[i.archive.archiveId].payload.archiveId == i.archive.archiveId
    ensures var after := CleanupAfterUnlock(rules, s, i);
      var key := RefreshKey(i.archive.archiveId, s.disk.licenses[i.archive.archiveId].payload.licenseId);
      Safe(rules, after.disk, intent, Ok(i.archive)) && AllSafe(rules, after.trace, intent, Ok(i.archive))
      <==> key in s.disk.secrets || i.cleanup.delete.fault == FailsClean
  {
    var after := CleanupAfterUnlock(rules, s, i);
    if i.cleanup.delete.fault != FailsClean {
      assert after.trace[0] == WithoutSecret(s.disk, IntentSecret(intent.id));
    }
  }

  /** The two attempts at an activation and the opening of the archive that loses it. The
      second attempt has a nonce, a grant and a clock reading of its own, only the licence
      id is the same. */
  ghost predicate FailingAttempts(rules: Rules, s: State, clock: ClockState, first: ActivateInputs, io: Storage,
                                  second: ActivateInputs, o: OpenInputs)
  {
    && s.active.Some? && Resumable(rules, s.disk, s.active.value) && rules.validId(s.active.value.id)
    // the first attempt stores token and licence and fails at the clock
    && first.archive == Ok(o.archive) && first.device.Ok? && first.readable && !first.switched && FreshGrant(first).Ok?
    && first.tokenWrite == Checked(Works, true) && first.licenseSaves
    && Reset(clock, first.clock.value, io).1.Err? && first.clockReset == Err(Reset(clock, first.clock.value, io).1.error)
    // the second one cannot write its token and takes the first one's away
    && second.archive == Ok(o.archive) && second.device.Ok? && second.readable && FreshGrant(second).Ok?
    && FreshGrant(second).value.0.payload.licenseId == FreshGrant(first).value.0.payload.licenseId
    && second.tokenWrite.fault == FailsClean && second.tokenUndo.fault != FailsClean
    // the archive is opened again
    && o.archive == Identity(s.active.value.archiveId, s.active.value.fingerprint) && o.device == s.active.value.device
    && o.loads && o.cleanup.delete.fault != FailsClean
  }

  /** The state before the archive is opened again. */
  function AfterAttempts(rules: Rules, s: State, first: ActivateInputs, second: ActivateInputs): State {
    Step(rules, Step(rules, s, ActivateIntent(first)), ActivateIntent(second)).(trace := [])
  }

  /** A token can be missing: both attempts fail and leave the payment resumable, and the
      next opening loses the paid intent exactly when the stored licence unlocks the
      archive. */
  lemma TokenCanBeMissing(rules: Rules, s: State, clock: ClockState, first: ActivateInputs, io: Storage,
                          second: ActivateInputs, o: OpenInputs)
    requires FailingAttempts(rules, s, clock, first, io, second, o)
    ensures var before := AfterAttempts(rules, s, first, second);
      var (end, _, unlocked) := OpenOffline(rules, before, Reset(clock, first.clock.value, io).0, o);
      && Resumable(rules, before.disk, s.active.value)
      && (Safe(rules, end.disk, s.active.value, Ok(o.archive)) <==> unlocked != Ok(true))
  {
    var intent := s.active.value;
    var one := Step(rules, s, ActivateIntent(first));
    var key := RefreshKey(o.archive.archiveId, FreshGrant(first).value.0.payload.licenseId);
    assert one.disk.licenses[o.archive.archiveId] == FreshGrant(first).value.0 && one.active == Some(intent);
    var before := AfterAttempts(rules, s, first, second);
    assert before.disk == WithoutSecret(one.disk, key);
    CleanupNeedsTheToken(rules, Switched(before, true), AfterUnlockInputs(o.archive, o.device, o.loads, o.cleanup), intent);
  }

  // ----- a run that loses a paid intent -----

  function PaidIntent(): ActiveIntent {
    ActiveIntent("i", "a", "f", "d", Some(1), "USDC", "u", Some(0), Some(1800), Confirmed)
  }

  /** An activation in which nothing fails, at second `now` with nonce `[nonce]`. */
  function PlainActivation(archive: Identity, nonce: int, now: I64): ActivateInputs {
    var payload := Payload("l", archive.archiveId, archive.fingerprint, "d", [nonce], Some(0), Some(OFFLINE_WINDOW_SECONDS));
    var works := Checked(Works, true);
    ActivateInputs(Ok(archive), Ok("d"), true, Discarding(works, true), Ok([nonce]), Ok((Grant(payload, true, Some([])), "r")),
                   Ok(ClockSample(now, 0)), works, works, true, Ok(()), Ok(()), Discarding(works, true), false)
  }

  /** A concrete run, on a fresh installation: the clock write of the first attempt takes
      effect but reports a failure, the token write of the second fails, and the unlock at
      the next opening succeeds. */
  lemma PaidIntentIsLost() returns (rules: Rules, s: State, first: ActivateInputs, second: ActivateInputs, o: OpenInputs)
    ensures s.active.Some? && Follows(s) && Resumable(rules, s.disk, s.active.value)
    ensures first.nonce.Ok? && second.nonce.Ok? && first.nonce != second.nonce && first.response != second.response
    ensures first.clock.Ok? && first.clockReset.Err?
    ensures var clock := Reset(ClockState(None, None), first.clock.value, Storage(true, FailsDirty)).0;
      var (end, _, unlocked) := OpenOffline(rules, AfterAttempts(rules, s, first, second), clock, o);
      && o.archive.archiveId == s.active.value.archiveId && unlocked == Ok(true)
      && !Safe(rules, end.disk, s.active.value, Ok(o.archive))
  {
    rules := Rules(_ => true, _ => true, _ => true, (_, _) => true);
    var archive, intent := Identity("a", "f"), PaidIntent();
    s := State(None, Some(intent), Durable(map["a" := intent], map[IntentSecret("i") := "t"], map[]), []);
    first := PlainActivation(archive, 0, 1).(clockReset := Err(SecureStoreUnavailable));
    second := PlainActivation(archive, 1, 2).(tokenWrite := Checked(FailsClean, true));
    o := OpenInputs(archive, "d", true, true, ClockSample(3, 0), Storage(true, Works), true, true,
                    Discarding(Checked(Works, true), true));
    var io, fresh0 := Storage(true, FailsDirty), ClockState(None, None);
    TokenCanBeMissing(rules, s, fresh0, first, io, second, o);
    StoredIsRead(1);
    UnlocksAgain(rules, s, first, second, o);
  }

  lemma UnlocksAgain(rules: Rules, s: State, first: ActivateInputs, second: ActivateInputs, o: OpenInputs)
    requires first == PlainActivation(Identity("a", "f"), 0, 1).(clockReset := Err(SecureStoreUnavailable))
    requires second == PlainActivation(Identity("a", "f"), 1, 2).(tokenWrite := Checked(FailsClean, true))
    requires s.active == Some(PaidIntent()) && Resumable(rules, s.disk, PaidIntent())
    requires o.archive == Identity("a", "f") && o.device == "d" && o.deviceReady && o.readable && o.installs
    requires o.sample.utc == 3 && o.io == Storage(true, Works)
    ensures OpenOffline(rules, AfterAttempts(rules, s, first, second), ClockState(Some(EncodeI64(1)), None), o).2 == Ok(true)
  {
    var d := AfterAttempts(rules, s, first, second).disk;
    assert FreshGrant(first).Ok? && FreshGrant(second).Ok?;
    assert "a" in d.licenses && d.licenses["a"] == FreshGrant(first).value.0 by {
      var one := Step(rules, s, ActivateIntent(first));
      assert one.disk.licenses["a"] == FreshGrant(first).value.0 && one.active == s.active;
    }
    LicenceUnlocks(d, o);
  }

  lemma LicenceUnlocks(d: Durable, o: OpenInputs)
    requires "a" in d.licenses && d.licenses["a"] == PlainActivation(Identity("a", "f"), 0, 1).response.value.0
    requires o.archive == Identity("a", "f") && o.device == "d" && o.deviceReady && o.readable && o.installs
    requires o.sample.utc == 3 && o.io == Storage(true, Works)
    ensures RestoreLocalLicense(ClockState(Some(EncodeI64(1)), None), RestoreOf(d, o)).1 == Ok(true)
  {
    var clock, attempt := ClockState(Some(EncodeI64(1)), None), RestoreOf(d, o);
    StoredIsRead(1);
    assert ObserveLocal(clock, o.sample, o.io).1 == Ok(3);
    assert UnlockOffline(attempt) == Ok(true);
  }
}
