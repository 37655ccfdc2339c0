/** The payment service as the program runs it: runtime fields and stores updated in a
    fixed order. Every method is proved to be the step of the protocol it implements.
    Models apps/viewer/src-tauri/src/payment_service.rs. */
module PaymentServices {
  import opened Outcomes
  import opened Viewer
  import opened Licenses
  import opened Rollback
  import opened Payments

  class PaymentService {
    const rules: Rules
    var metadata: Option<Metadata>
    var active: Option<ActiveIntent>
    var disk: Durable
    ghost var trace: seq<Durable>

    constructor (r: Rules, stores: Durable)
      ensures rules == r && Now() == State(None, None, stores, [])
    {
      rules, metadata, active, disk, trace := r, None, None, stores, [];
    }

    ghost function Now(): State
      reads this
    {
      State(metadata, active, disk, trace)
    }

    // ----- stores -----

    method Put(d: Durable)
      modifies `disk, `trace
      ensures disk == d && trace == old(trace) + [d]
    {
      disk := d;
      trace := trace + [d];
    }

    method WriteVerifiedSecret(key: SecretKey, value: string, c: Checked) returns (r: Result<()>)
      modifies `disk, `trace
      ensures (Now(), r) == WriteVerified(old(Now()), key, value, c)
    {
      if c.fault != FailsClean {
        Put(WithSecret(disk, key, value));
      }
      if c.fault != Works || !c.readsBack || key !in disk.secrets || disk.secrets[key] != value {
        return Err(SecureStoreUnavailable);
      }
      return Ok(());
    }

    method DeleteVerifiedSecret(key: SecretKey, c: Checked) returns (r: Result<()>)
      modifies `disk, `trace
      ensures (Now(), r) == DeleteVerified(old(Now()), key, c)
    {
      if c.fault != FailsClean {
        Put(WithoutSecret(disk, key));
      }
      if c.fault != Works || !c.readsBack || key in disk.secrets {
        return Err(SecureStoreUnavailable);
      }
      return Ok(());
    }

    method SaveRecord(intent: ActiveIntent, works: bool) returns (r: Result<()>)
      modifies `disk, `trace
      ensures (Now(), r) == SaveIntent(old(Now()), intent, works)
    {
      if !works {
        return Err(PaymentStorage);
      }
      Put(disk.(intents := disk.intents[intent.archiveId := intent]));
      return Ok(());
    }

    method ClearRecord(archiveId: string, works: bool) returns (r: Result<()>)
      modifies `disk, `trace
      ensures (Now(), r) == ClearIntent(old(Now()), archiveId, works)
    {
      if !works {
        return Err(PaymentStorage);
      }
      Put(disk.(intents := disk.intents - {archiveId}));
      return Ok(());
    }

    method SaveGrant(grant: Grant, works: bool) returns (r: Result<()>)
      modifies `disk, `trace
      ensures (Now(), r) == SaveLicense(old(Now()), grant, works)
    {
      if !works {
        return Err(LicenseStorage);
      }
      Put(disk.(licenses := disk.licenses[grant.payload.archiveId := grant]));
      return Ok(());
    }

    // ----- shared steps -----

    method ResetForArchiveSwitch()
      modifies `metadata, `active
      ensures Now() == Switched(old(Now()), true)
    {
      metadata, active := None, None;
    }

    /** Another thread may switch archives here. */
    method MayBeSwitched(happens: bool)
      modifies `metadata, `active
      ensures Now() == Switched(old(Now()), happens)
    {
      if happens {
        ResetForArchiveSwitch();
      }
    }

    method DiscardOrphanedIntent(intent: ActiveIntent, f: Discarding) returns (r: Result<()>)
      modifies this
      ensures (Now(), r) == Discard(old(Now()), intent, f)
    {
      active := None;
      var _ :- DeleteVerifiedSecret(IntentSecret(intent.id), f.delete);
      r := ClearRecord(intent.archiveId, f.clears);
    }

    method ResumableIntentSecret(intent: ActiveIntent, readable: bool, f: Discarding) returns (r: Result<Option<string>>)
      modifies this
      ensures (Now(), r) == ResumeSecret(rules, old(Now()), intent, readable, f)
    {
      if !readable {
        return Err(SecureStoreUnavailable);
      }
      var key := IntentSecret(intent.id);
      if key in disk.secrets && rules.validToken(disk.secrets[key]) {
        return Ok(Some(disk.secrets[key]));
      }
      var _ :- DiscardOrphanedIntent(intent, f);
      return Ok(None);
    }

    method CleanupCompletedIntent(intent: ActiveIntent, f: Discarding)
      modifies this
      ensures Now() == Cleanup(old(Now()), intent, f)
    {
      active := None;
      var deleted := DeleteVerifiedSecret(IntentSecret(intent.id), f.delete);
      if deleted.Ok? {
        var _ := ClearRecord(intent.archiveId, f.clears);
      }
    }

    // ----- operations -----

    method CurrentView(readable: bool, f: Discarding) returns (r: Result<Option<PaymentView>>)
      modifies this
      ensures (Now(), r) == CurrentPayment(rules, old(Now()), readable, f)
    {
      var intent := active;
      if intent == None {
        return Ok(None);
      }
      var secret :- ResumableIntentSecret(intent.value, readable, f);
      return Ok(if secret.Some? then Some(PaymentView(intent.value)) else None);
    }

    method CheckArchiveMetadata(i: CheckInputs) returns (r: Result<()>)
      modifies this
      ensures (Now(), r) == CheckMetadata(rules, old(Now()), i)
    {
      var archive :- i.archive;
      var response :- i.response;
      if response.archiveId != archive.archiveId || response.fingerprint != archive.fingerprint {
        return Err(MetadataMismatch);
      }
      var device :- i.device;
      if !i.loads {
        return Err(PaymentStorage);
      }
      var resumed: Option<ActiveIntent> := None;
      if archive.archiveId in disk.intents {
        var intent := disk.intents[archive.archiveId];
        if intent.archiveId != archive.archiveId || !IntentMatches(rules, intent, response, device) {
          return Err(PaymentStorage);
        }
        var secret :- ResumableIntentSecret(intent, i.readable, i.discard);
        resumed := if secret.Some? then Some(intent) else None;
      }
      MayBeSwitched(i.switched);
      metadata, active := Some(response), resumed;
      return Ok(());
    }

    method PrepareIntent(i: PrepareInputs) returns (r: Result<PaymentView>)
      modifies this
      ensures (Now(), r) == PreparePayment(rules, old(Now()), i)
    {
      var archive :- i.archive;
      var device :- i.device;
      var existing, known := active, metadata;
      if known == None {
        return Err(MetadataMismatch);
      }
      MayBeSwitched(i.switchedFirst);
      if existing.Some? {
        var secret :- ResumableIntentSecret(existing.value, i.readable, i.discard);
        if secret.Some? {
          return Ok(PaymentView(existing.value));
        }
      }
      if known.value.archiveId != archive.archiveId {
        return Err(MetadataMismatch);
      }
      var response :- i.response;
      if !IntentMatches(rules, response.intent, known.value, device) || !rules.validToken(response.clientSecret) {
        return Err(MetadataMismatch);
      }
      r := StorePrepared(response.intent.(status := Created), response.clientSecret, i);
    }

    method StorePrepared(intent: ActiveIntent, secret: string, i: PrepareInputs) returns (r: Result<PaymentView>)
      modifies this
      ensures (Now(), r) == StoreIntent(old(Now()), intent, secret, i)
    {
      var _ :- WriteVerifiedSecret(IntentSecret(intent.id), secret, i.write);
      var saved := SaveRecord(intent, i.saves);
      if saved.Err? {
        var _ := DeleteVerifiedSecret(IntentSecret(intent.id), Checked(i.undo, true));
        return Err(saved.error);
      }
      MayBeSwitched(i.switchedLast);
      active := Some(intent);
      return Ok(PaymentView(intent));
    }

    method VerifyActive(i: VerifyInputs) returns (r: Result<PaymentView>)
      modifies this
      ensures (Now(), r) == VerifyPayment(rules, old(Now()), i)
      ensures r.Ok? ==>
        && old(active).Some? && i.reply.Replied? && r.value.intent == old(active).value.(status := i.reply.status)
        && active == Some(r.value.intent)
        && disk == old(disk).(intents := old(disk).intents[r.value.intent.archiveId := r.value.intent])
    {
      var intent := active;
      if intent == None {
        return Err(PaymentStorage);
      }
      MayBeSwitched(i.switchedFirst);
      var secret :- ResumableIntentSecret(intent.value, i.readable, i.discard);
      if secret == None {
        return Err(MissingIntentCredential);
      }
      match i.reply {
        case Malformed =>
          return Err(PaymentFailed);
        case Rejected(error, terminal) =>
          if terminal {
            var _ :- DiscardOrphanedIntent(intent.value, i.discardRejected);
          }
          return Err(error);
        case Replied(status) =>
          var updated := intent.value.(status := status);
          var _ :- SaveRecord(updated, i.saves);
          MayBeSwitched(i.switchedLast);
          active := Some(updated);
          return Ok(PaymentView(updated));
      }
    }

    method ActivateConfirmed(i: ActivateInputs) returns (r: Result<ClockSample>)
      modifies this
      ensures (Now(), r) == Activate(rules, old(Now()), i)
    {
      var intent := active;
      if intent == None || intent.value.status != Confirmed {
        return Err(PaymentFailed);
      }
      MayBeSwitched(i.switched);
      var archive :- i.archive;
      var device :- i.device;
      var secret :- ResumableIntentSecret(intent.value, i.readable, i.discard);
      if secret == None {
        return Err(MissingIntentCredential);
      }
      var answer :- FreshGrant(i);
      r := InstallGrant(intent.value, answer.0, answer.1, i);
    }

    method InstallGrant(intent: ActiveIntent, grant: Grant, token: string, i: ActivateInputs)
      returns (r: Result<ClockSample>)
      requires i.archive.Ok? && i.clock.Ok?
      modifies this
      ensures (Now(), r) == StoreActivation(old(Now()), intent, grant, token, i)
    {
      var key := RefreshKey(i.archive.value.archiveId, grant.payload.licenseId);
      var written := WriteVerifiedSecret(key, token, i.tokenWrite);
      if written.Err? {
        var _ := DeleteVerifiedSecret(key, i.tokenUndo);
        return Err(written.error);
      }
      var _ :- SaveGrant(grant, i.licenseSaves);
      var _ :- i.clockReset;
      var _ :- i.install;
      CleanupCompletedIntent(intent, i.cleanup);
      return Ok(i.clock.value);
    }

    method CleanupCompletedIntentAfterUnlock(i: AfterUnlockInputs)
      modifies this
      ensures Now() == CleanupAfterUnlock(rules, old(Now()), i)
    {
      if !i.loads || i.archive.archiveId !in disk.intents {
        return;
      }
      var intent := disk.intents[i.archive.archiveId];
      if intent.archiveId == i.archive.archiveId && intent.status == Confirmed
         && intent.fingerprint == i.archive.fingerprint && intent.device == i.device && rules.validId(intent.id)
      {
        CleanupCompletedIntent(intent, i.cleanup);
      }
    }

    method RefreshGrant(i: RefreshInputs) returns (r: Result<ClockSample>)
      modifies this
      ensures (Now(), r) == Refresh(rules, old(Now()), i)
    {
      var archive :- i.archive;
      var device :- i.device;
      var licenseId :- RefreshIdentity(disk, i);
      var key := RefreshKey(archive.archiveId, licenseId);
      if !i.readsToken {
        return Err(SecureStoreUnavailable);
      }
      if key !in disk.secrets {
        return Err(MissingRefreshCredential);
      }
      if !rules.validToken(disk.secrets[key]) {
        return Err(CorruptSecureStore);
      }
      var nonce :- i.nonce;
      match i.reply {
        case Refused(error, terminal) =>
          if terminal {
            var _ :- DeleteVerifiedSecret(key, i.tokenDelete);
          }
          return Err(error);
        case Granted(grant) =>
          r := ReplaceGrant(grant, licenseId, i);
      }
    }

    method ReplaceGrant(grant: Grant, licenseId: string, i: RefreshInputs) returns (r: Result<ClockSample>)
      requires i.archive.Ok? && i.device.Ok? && i.nonce.Ok?
      modifies this
      ensures (Now(), r) == StoreRefreshed(old(Now()), grant, licenseId, i)
    {
      var clock :- i.clock;
      if !InTimestampRange(clock.utc) {
        return Err(RefreshRequired);
      }
      var archive, device := i.archive.value, i.device.value;
      var _ :- ValidateFresh(grant, Context(archive.archiveId, archive.fingerprint, device, device, clock.utc), i.nonce.value);
      if grant.payload.licenseId != licenseId {
        return Err(InvalidLicense);
      }
      var _ :- SaveGrant(grant, i.licenseSaves);
      var _ :- i.clockReset;
      var _ :- i.install;
      return Ok(clock);
    }

    /** The offline half of opening an archive. */
    method OpenArchive(rollback: RollbackManager, o: OpenInputs) returns (r: Result<bool>)
      modifies this, rollback
      ensures (Now(), rollback.State(), r) == OpenOffline(rules, old(Now()), old(rollback.State()), o)
      ensures r == Ok(true) ==>
        && o.archive.archiveId in old(disk).licenses
        && var grant := old(disk).licenses[o.archive.archiveId];
        && Fits(grant, o.archive, o.device, grant.payload.requestNonce, o.sample.utc)
    {
      ResetForArchiveSwitch();
      r := RestoreLocal(rollback, RestoreOf(disk, o));
      if r == Ok(true) {
        UnlocksExactly(old(rollback.State()), RestoreOf(disk, o));
        CleanupCompletedIntentAfterUnlock(AfterUnlockInputs(o.archive, o.device, o.loads, o.cleanup));
      }
    }

    method OpenAt(clock: ClockState, o: OpenInputs)
      modifies this
      ensures Now() == OpenOffline(rules, old(Now()), clock, o).0
    {
      var rollback := new RollbackManager.At(clock);
      var _ := OpenArchive(rollback, o);
    }

    /** Any operation, one after the other: the run theorems of the protocol speak about
        this object. */
    method Perform(op: Op)
      modifies this
      ensures Now() == Step(rules, old(Now()), op)
    {
      trace := [];
      match op {
        case Check(i) => var _ := CheckArchiveMetadata(i);
        case Prepare(i) => var _ := PrepareIntent(i);
        case Current(readable, discard) => var _ := CurrentView(readable, discard);
        case Verify(i) => var _ := VerifyActive(i);
        case ActivateIntent(i) => var _ := ActivateConfirmed(i);
        case RefreshLicense(i) => var _ := RefreshGrant(i);
        case AfterUnlock(i) => CleanupCompletedIntentAfterUnlock(i);
        case Open(clock, o) => OpenAt(clock, o);
        case SwitchArchive => ResetForArchiveSwitch();
      }
    }
  }
}
