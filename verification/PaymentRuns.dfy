/** What the payment protocol answers and what its runs leave on disk: which payments count
    as confirmed, and which licences are ever stored.
    Models apps/viewer/src-tauri/src/payment_service.rs. */
module PaymentRuns {
  import opened Outcomes
  import opened Viewer
  import opened Licenses
  import opened Payments

  // ----- preparing a payment -----

  /** Without an intent in memory a payment is created exactly if the answer of the backend
      matches the checked metadata and this device, and both of its parts are stored. */
  lemma CreatesExactly(rules: Rules, s: State, i: PrepareInputs)
    requires s.active.None?
    ensures PreparePayment(rules, s, i).1.Ok? <==>
      && i.archive.Ok? && i.device.Ok? && s.metadata.Some? && s.metadata.value.archiveId == i.archive.value.archiveId
      && i.response.Ok? && IntentMatches(rules, i.response.value.intent, s.metadata.value, i.device.value)
      && rules.validToken(i.response.value.clientSecret) && i.write == Checked(Works, true) && i.saves
    ensures PreparePayment(rules, s, i).1.Ok? ==>
      var (after, view) := PreparePayment(rules, s, i);
      var (intent, secret) := (i.response.value.intent.(status := Created), i.response.value.clientSecret);
      && view.value.intent == intent && after.active == Some(intent)
      && after.disk.intents == s.disk.intents[intent.archiveId := intent]
      && after.disk.secrets == s.disk.secrets[IntentSecret(intent.id) := secret]
      && after.disk.licenses == s.disk.licenses
  {
  }

  /** An intent in memory with its secret is shown again, and nothing is written. */
  lemma ShowsAgain(rules: Rules, s: State, i: PrepareInputs)
    requires s.active.Some? && s.metadata.Some? && i.archive.Ok? && i.device.Ok? && i.readable
    requires SecretStored(rules, s.disk, s.active.value)
    ensures var (after, view) := PreparePayment(rules, s, i);
      && view == Ok(PaymentView(s.active.value)) && after.disk == s.disk && after.trace == s.trace
      && (!i.switchedFirst ==> after == s)
  {
  }

  /** After a check the metadata is that of this very archive. The intent in memory is the
      record of the archive if there is one with its secret, which then matches the
      metadata and this device, and none otherwise. */
  lemma CheckTakesTheRecord(rules: Rules, s: State, i: CheckInputs)
    requires CheckMetadata(rules, s, i).1.Ok?
    ensures i.archive.Ok? && i.response.Ok? && i.device.Ok?
    ensures var (after, id) := (CheckMetadata(rules, s, i).0, i.archive.value.archiveId);
      && after.metadata == Some(i.response.value)
      && i.response.value.archiveId == id && i.response.value.fingerprint == i.archive.value.fingerprint
      && (after.active.Some? <==> id in s.disk.intents && SecretStored(rules, s.disk, s.disk.intents[id]))
      && (after.active.Some? ==> after.active.value == s.disk.intents[id] && after.disk == s.disk)
      && (id in s.disk.intents ==> IntentMatches(rules, s.disk.intents[id], i.response.value, i.device.value))
  {
  }

  // ----- the answer to a verification -----

  /** A verification succeeds exactly if there is an intent in memory whose secret is
      stored, the backend answers with a status, and the record can be saved. */
  lemma VerifiesExactly(rules: Rules, s: State, i: VerifyInputs)
    ensures VerifyPayment(rules, s, i).1.Ok?
      <==> s.active.Some? && i.readable && SecretStored(rules, s.disk, s.active.value) && i.reply.Replied? && i.saves
  {
  }

  /** View, memory and record then are the intent with exactly the status of the answer,
      and nothing else on disk has changed. */
  lemma VerifyRecordsTheReply(rules: Rules, s: State, i: VerifyInputs)
    requires VerifyPayment(rules, s, i).1.Ok?
    ensures s.active.Some? && i.reply.Replied?
    ensures var (after, view) := VerifyPayment(rules, s, i);
      && view.value.intent == s.active.value.(status := i.reply.status)
      && after.active == Some(view.value.intent)
      && after.disk == s.disk.(intents := s.disk.intents[s.active.value.archiveId := view.value.intent])
  {
  }

  /** A failed one changes no status: at most the record of the intent is gone. */
  lemma FailedVerifyChangesNoStatus(rules: Rules, s: State, i: VerifyInputs, id: string)
    requires VerifyPayment(rules, s, i).1.Err?
    ensures var after := VerifyPayment(rules, s, i).0;
      && (id in after.disk.intents ==> id in s.disk.intents && after.disk.intents[id] == s.disk.intents[id])
      && (id in s.disk.intents && id !in after.disk.intents ==> s.active.Some? && id == s.active.value.archiveId)
  {
  }

  // ----- which grants are taken -----

  /** The response to an activation is taken exactly if it fits the request. */
  lemma TakesFittingGrants(i: ActivateInputs)
    requires i.archive.Ok? && i.device.Ok?
    ensures FreshGrant(i).Ok? <==>
      && i.nonce.Ok? && i.response.Ok? && i.clock.Ok?
      && Fits(i.response.value.0, i.archive.value, i.device.value, i.nonce.value, i.clock.value.utc)
    ensures FreshGrant(i).Ok? ==> FreshGrant(i).value == i.response.value
  {
  }

  /** An activation succeeds exactly if the payment is confirmed, its secret stored, the
      response fits, and token, licence, clock and session all take it. */
  lemma ActivatesExactly(rules: Rules, s: State, i: ActivateInputs)
    ensures Activate(rules, s, i).1.Ok? <==>
      && s.active.Some? && s.active.value.status == Confirmed
      && i.archive.Ok? && i.device.Ok? && i.readable && SecretStored(rules, s.disk, s.active.value)
      && i.nonce.Ok? && i.response.Ok? && i.clock.Ok?
      && Fits(i.response.value.0, i.archive.value, i.device.value, i.nonce.value, i.clock.value.utc)
      && i.tokenWrite == Checked(Works, true) && i.licenseSaves && i.clockReset.Ok? && i.install.Ok?
  {
    if i.archive.Ok? && i.device.Ok? { TakesFittingGrants(i); }
  }

  /** A successful refresh replaces the stored licence and nothing else. */
  lemma RefreshReplacesTheLicence(rules: Rules, s: State, i: RefreshInputs)
    requires Refresh(rules, s, i).1.Ok?
    ensures i.archive.Ok? && i.reply.Granted?
    ensures var after := Refresh(rules, s, i).0;
      && after.disk == s.disk.(licenses := s.disk.licenses[i.archive.value.archiveId := i.reply.grant])
      && after.active == s.active && after.metadata == s.metadata
  {
    RefreshesExactly(rules, s, i);
  }

  /** A refresh succeeds exactly if the stored licence could open this archive on this
      device at some time, its token is there, and the response fits and has its id. */
  lemma RefreshesExactly(rules: Rules, s: State, i: RefreshInputs)
    ensures Refresh(rules, s, i).1.Ok? <==>
      && i.archive.Ok? && i.device.Ok? && i.loads && i.archive.value.archiveId in s.disk.licenses
      && var (stored, archive) := (s.disk.licenses[i.archive.value.archiveId], i.archive.value);
      && stored.payload.issuedAt.Some?
      && Fits(stored, archive, i.device.value, stored.payload.requestNonce, stored.payload.issuedAt.value)
      && var key := RefreshKey(archive.archiveId, stored.payload.licenseId);
      && i.readsToken && key in s.disk.secrets && rules.validToken(s.disk.secrets[key])
      && i.nonce.Ok? && i.reply.Granted? && i.clock.Ok?
      && Fits(i.reply.grant, archive, i.device.value, i.nonce.value, i.clock.value.utc)
      && i.reply.grant.payload.licenseId == stored.payload.licenseId
      && i.licenseSaves && i.clockReset.Ok? && i.install.Ok?
  {
  }

  // ----- every state of the disk -----

  /** This operation asked for a licence and this grant fits its request. */
  predicate AskedFor(op: Op, g: Grant) {
    match op
    case ActivateIntent(i) =>
      && i.archive.Ok? && i.device.Ok? && i.nonce.Ok? && i.response.Ok? && i.clock.Ok? && g == i.response.value.0
      && Fits(g, i.archive.value, i.device.value, i.nonce.value, i.clock.value.utc)
    case RefreshLicense(i) =>
      && i.archive.Ok? && i.device.Ok? && i.nonce.Ok? && i.clock.Ok? && i.reply == Granted(g)
      && Fits(g, i.archive.value, i.device.value, i.nonce.value, i.clock.value.utc)
    case _ => false
  }

  /** What a verification that was told so confirms: the intent it asked about. */
  function Confirms(s: State, op: Op): Option<ActiveIntent> {
    if op.Verify? && op.verify.reply == Replied(Confirmed) && s.active.Some? then Some(s.active.value.(status := Confirmed))
    else None
  }

  /** Confirmed records were there before, or were just confirmed. */
  predicate RecordsAllowed(before: Durable, confirmed: Option<ActiveIntent>, d: Durable) {
    forall id :: id in d.intents && d.intents[id].status == Confirmed ==>
      (id in before.intents && before.intents[id] == d.intents[id]) || confirmed == Some(d.intents[id])
  }

  /** Licences were there before, or were just asked for; these lie under their archive. */
  predicate LicensesAllowed(before: Durable, op: Op, d: Durable) {
    forall id :: id in d.licenses ==>
      || (id in before.licenses && before.licenses[id] == d.licenses[id])
      || (d.licenses[id].payload.archiveId == id && AskedFor(op, d.licenses[id]))
  }

  function Allowed(s: State, op: Op): Durable -> bool {
    d => RecordsAllowed(s.disk, Confirms(s, op), d) && LicensesAllowed(s.disk, op, d)
  }

  /** The final disk and every state it went through satisfy `ok`. */
  ghost predicate Throughout(s: State, ok: Durable -> bool) {
    ok(s.disk) && forall k :: 0 <= k < |s.trace| ==> ok(s.trace[k])
  }

  /** Same licences, and no record but those of `d`. */
  predicate Fewer(d: Durable, e: Durable) {
    e.licenses == d.licenses && forall id :: id in e.intents ==> id in d.intents && e.intents[id] == d.intents[id]
  }

  function Recorded(d: Durable, intent: ActiveIntent): Durable {
    d.(intents := d.intents[intent.archiveId := intent])
  }

  ghost predicate RecordOk(ok: Durable -> bool, intent: ActiveIntent) {
    forall d {:trigger Recorded(d, intent)} :: ok(d) ==> ok(Recorded(d, intent))
  }

  /** Secrets do not matter, records may go, and what is not confirmed may be recorded. */
  ghost predicate Stable(ok: Durable -> bool) {
    && (forall d, e {:trigger Fewer(d, e)} :: ok(d) && Fewer(d, e) ==> ok(e))
    && (forall intent: ActiveIntent {:trigger RecordOk(ok, intent)} :: intent.status != Confirmed ==> RecordOk(ok, intent))
  }

  lemma AllowedIsStable(s: State, op: Op)
    ensures Stable(Allowed(s, op))
    ensures Confirms(s, op).Some? ==> RecordOk(Allowed(s, op), Confirms(s, op).value)
  {
  }

  lemma SecretKeeps(s: State, key: SecretKey, value: string, c: Checked, ok: Durable -> bool)
    requires Stable(ok) && Throughout(s, ok)
    ensures Throughout(WriteVerified(s, key, value, c).0, ok)
    ensures Throughout(DeleteVerified(s, key, c).0, ok)
  {
    assert Fewer(s.disk, WithSecret(s.disk, key, value)) && Fewer(s.disk, WithoutSecret(s.disk, key));
  }

  lemma DiscardKeeps(s: State, intent: ActiveIntent, f: Discarding, ok: Durable -> bool)
    requires Stable(ok) && Throughout(s, ok)
    ensures Throughout(Discard(s, intent, f).0, ok)
  {
    SecretKeeps(s.(active := None), IntentSecret(intent.id), "", f.delete, ok);
    var deleted := DeleteVerified(s.(active := None), IntentSecret(intent.id), f.delete).0;
    assert Fewer(deleted.disk, deleted.disk.(intents := deleted.disk.intents - {intent.archiveId}));
  }

  lemma SaveKeeps(s: State, intent: ActiveIntent, works: bool, ok: Durable -> bool)
    requires Throughout(s, ok) && RecordOk(ok, intent)
    ensures Throughout(SaveIntent(s, intent, works).0, ok)
  {
    assert ok(Recorded(s.disk, intent));
  }

  lemma CreateKeeps(rules: Rules, s: State, metadata: Metadata, i: PrepareInputs, ok: Durable -> bool)
    requires i.archive.Ok? && i.device.Ok? && Stable(ok) && Throughout(s, ok)
    ensures Throughout(CreateIntent(rules, s, metadata, i).0, ok)
  {
    if i.response.Ok? {
      var intent, secret := i.response.value.intent.(status := Created), i.response.value.clientSecret;
      SecretKeeps(s, IntentSecret(intent.id), secret, i.write, ok);
      var written := WriteVerified(s, IntentSecret(intent.id), secret, i.write).0;
      assert RecordOk(ok, intent);
      SaveKeeps(written, intent, i.saves, ok);
      SecretKeeps(SaveIntent(written, intent, i.saves).0, IntentSecret(intent.id), "", Checked(i.undo, true), ok);
    }
  }

  lemma PrepareKeeps(rules: Rules, s: State, i: PrepareInputs, ok: Durable -> bool)
    requires Stable(ok) && Throughout(s, ok)
    ensures Throughout(PreparePayment(rules, s, i).0, ok)
  {
    var cleared := Switched(s, i.switchedFirst);
    if i.archive.Ok? && i.device.Ok? && s.metadata.Some? {
      CreateKeeps(rules, cleared, s.metadata.value, i, ok);
      if s.active.Some? {
        DiscardKeeps(cleared, s.active.value, i.discard, ok);
        var resumed := ResumeSecret(rules, cleared, s.active.value, i.readable, i.discard).0;
        CreateKeeps(rules, resumed, s.metadata.value, i, ok);
      }
    }
  }

  lemma CheckKeeps(rules: Rules, s: State, i: CheckInputs, ok: Durable -> bool)
    requires Stable(ok) && Throughout(s, ok)
    ensures Throughout(CheckMetadata(rules, s, i).0, ok)
  {
    if i.archive.Ok? && LoadIntent(s, i.archive.value.archiveId, i.loads).Ok? {
      var found := LoadIntent(s, i.archive.value.archiveId, i.loads).value;
      if found.Some? { DiscardKeeps(s, found.value, i.discard, ok); }
    }
  }

  lemma VerifyKeeps(rules: Rules, s: State, i: VerifyInputs, ok: Durable -> bool)
    requires Stable(ok) && Throughout(s, ok)
    requires Confirms(s, Verify(i)).Some? ==> RecordOk(ok, Confirms(s, Verify(i)).value)
    ensures Throughout(VerifyPayment(rules, s, i).0, ok)
  {
    if s.active.Some? {
      var intent, cleared := s.active.value, Switched(s, i.switchedFirst);
      DiscardKeeps(cleared, intent, i.discard, ok);
      DiscardKeeps(cleared, intent, i.discardRejected, ok);
      if i.reply.Replied? {
        assert RecordOk(ok, intent.(status := i.reply.status));
        SaveKeeps(cleared, intent.(status := i.reply.status), i.saves, ok);
      }
    }
  }

  lemma StoringKeeps(s: State, intent: ActiveIntent, grant: Grant, token: string, i: ActivateInputs, ok: Durable -> bool)
    requires i.archive.Ok? && i.clock.Ok? && Stable(ok) && Throughout(s, ok)
    requires forall d :: ok(d) ==> ok(d.(licenses := d.licenses[grant.payload.archiveId := grant]))
    ensures Throughout(StoreActivation(s, intent, grant, token, i).0, ok)
  {
    var key := RefreshKey(i.archive.value.archiveId, grant.payload.licenseId);
    SecretKeeps(s, key, token, i.tokenWrite, ok);
    var written := WriteVerified(s, key, token, i.tokenWrite).0;
    SecretKeeps(written, key, "", i.tokenUndo, ok);
    var saved := SaveLicense(written, grant, i.licenseSaves).0;
    assert Throughout(saved, ok);
    DiscardKeeps(saved, intent, i.cleanup, ok);
  }

  lemma ActivateKeeps(rules: Rules, s: State, i: ActivateInputs)
    requires s.trace == []
    ensures Throughout(Activate(rules, s, i).0, Allowed(s, ActivateIntent(i)))
  {
    var ok := Allowed(s, ActivateIntent(i));
    AllowedIsStable(s, ActivateIntent(i));
    if s.active.Some? && i.archive.Ok? && i.device.Ok? {
      var cleared := Switched(s, i.switched);
      DiscardKeeps(cleared, s.active.value, i.discard, ok);
      TakesFittingGrants(i);
      if FreshGrant(i).Ok? {
        StoringKeeps(cleared, s.active.value, FreshGrant(i).value.0, FreshGrant(i).value.1, i, ok);
      }
    }
  }

  lemma CleanupKeeps(rules: Rules, s: State, i: AfterUnlockInputs, ok: Durable -> bool)
    requires Stable(ok) && Throughout(s, ok)
    ensures Throughout(CleanupAfterUnlock(rules, s, i), ok)
  {
    var loaded := LoadIntent(s, i.archive.archiveId, i.loads);
    if loaded.Ok? && loaded.value.Some? { DiscardKeeps(s, loaded.value.value, i.cleanup, ok); }
  }

  lemma SaveLicenseKeeps(s: State, grant: Grant, works: bool, ok: Durable -> bool)
    requires Throughout(s, ok) && ok(s.disk.(licenses := s.disk.licenses[grant.payload.archiveId := grant]))
    ensures Throughout(SaveLicense(s, grant, works).0, ok)
  {
  }

  lemma StoreRefreshedKeeps(s: State, grant: Grant, licenseId: string, i: RefreshInputs)
    requires i.archive.Ok? && i.device.Ok? && i.nonce.Ok? && i.reply == Granted(grant) && s.trace == []
    ensures Throughout(StoreRefreshed(s, grant, licenseId, i).0, Allowed(s, RefreshLicense(i)))
  {
    var ok := Allowed(s, RefreshLicense(i));
    if AskedFor(RefreshLicense(i), grant) {
      assert ok(s.disk.(licenses := s.disk.licenses[grant.payload.archiveId := grant]));
      SaveLicenseKeeps(s, grant, i.licenseSaves, ok);
    }
  }

  lemma RefreshKeeps(rules: Rules, s: State, i: RefreshInputs)
    requires s.trace == []
    ensures Throughout(Refresh(rules, s, i).0, Allowed(s, RefreshLicense(i)))
  {
    AllowedIsStable(s, RefreshLicense(i));
    if i.archive.Ok? && i.device.Ok? && RefreshIdentity(s.disk, i).Ok? {
      var licenseId := RefreshIdentity(s.disk, i).value;
      SecretKeeps(s, RefreshKey(i.archive.value.archiveId, licenseId), "", i.tokenDelete, Allowed(s, RefreshLicense(i)));
      if i.nonce.Ok? && i.reply.Granted? { StoreRefreshedKeeps(s, i.reply.grant, licenseId, i); }
    }
  }

  /** No operation confirms a record but a verification that was told so, and no operation
      stores a licence but an activation or a refresh, which store only a grant that fits
      their own request. This holds at every write. */
  lemma StepStaysAllowed(rules: Rules, s: State, op: Op)
    ensures Throughout(Step(rules, s, op), Allowed(s, op))
  {
    var start, ok := s.(trace := []), Allowed(s, op);
    AllowedIsStable(s, op);
    assert Confirms(s, op) == Confirms(start, op) && ok(start.disk);
    match op
    case Check(i) => CheckKeeps(rules, start, i, ok);
    case Prepare(i) => PrepareKeeps(rules, start, i, ok);
    case Current(readable, f) => if s.active.Some? { DiscardKeeps(start, s.active.value, f, ok); }
    case Verify(i) => VerifyKeeps(rules, start, i, ok);
    case ActivateIntent(i) => ActivateKeeps(rules, start, i);
    case RefreshLicense(i) => RefreshKeeps(rules, start, i);
    case AfterUnlock(i) => CleanupKeeps(rules, start, i, ok);
    case Open(clock, o) =>
      CleanupKeeps(rules, Switched(start, true), AfterUnlockInputs(o.archive, o.device, o.loads, o.cleanup), ok);
    case SwitchArchive =>
  }

  // ----- who confirmed a payment -----

  /** Event number `k` asked about this very intent, and the backend answered that it is
      paid. */
  ghost predicate ConfirmedAt(rules: Rules, s: State, events: seq<Event>, k: nat, record: ActiveIntent) {
    && k < |events| && events[k].op.Verify? && events[k].op.verify.reply == Replied(Confirmed)
    && var asked := Run(rules, s, events[..k]).active;
    && asked.Some? && asked.value.(status := Confirmed) == record
  }

  lemma NextConfirms(rules: Rules, s: State, e: Event, id: string)
    requires var d := Next(rules, s, e).disk; id in d.intents && d.intents[id].status == Confirmed
    ensures var record := Next(rules, s, e).disk.intents[id];
      (id in s.disk.intents && s.disk.intents[id] == record) || Confirms(s, e.op) == Some(record)
  {
    StepStaysAllowed(rules, s, e.op);
  }

  lemma {:induction false} LaterConfirmed(rules: Rules, s: State, events: seq<Event>, k: nat, record: ActiveIntent)
    requires events != [] && ConfirmedAt(rules, Next(rules, s, events[0]), events[1..], k, record)
    ensures ConfirmedAt(rules, s, events, k + 1, record)
  {
    assert events[..k + 1][1..] == events[1..][..k] && events[..k + 1][0] == events[0];
    assert Run(rules, s, events[..k + 1]) == Run(rules, Next(rules, s, events[0]), events[1..][..k]);
  }

  lemma {:induction false} ConfirmedByAnAnswer(rules: Rules, s: State, events: seq<Event>, id: string)
    requires var d := Run(rules, s, events).disk; id in d.intents && d.intents[id].status == Confirmed
    ensures var record := Run(rules, s, events).disk.intents[id];
      (id in s.disk.intents && s.disk.intents[id] == record) || exists k :: ConfirmedAt(rules, s, events, k, record)
    decreases |events|
  {
    if events != [] {
      var next, record := Next(rules, s, events[0]), Run(rules, s, events).disk.intents[id];
      ConfirmedByAnAnswer(rules, next, events[1..], id);
      if k :| ConfirmedAt(rules, next, events[1..], k, record) {
        LaterConfirmed(rules, s, events, k, record);
      } else {
        NextConfirms(rules, s, events[0], id);
        if Confirms(s, events[0].op) == Some(record) {
          assert events[..0] == [];
          assert ConfirmedAt(rules, s, events, 0, record);
        }
      }
    }
  }

  predicate NothingConfirmed(s: State) {
    forall id :: id in s.disk.intents ==> s.disk.intents[id].status != Confirmed
  }

  /** Over every run, crashes included: a record is confirmed only if some verification of
      this intent was answered so. */
  lemma ConfirmedWasAnswered(rules: Rules, s: State, events: seq<Event>, id: string)
    requires NothingConfirmed(s)
    requires var d := Run(rules, s, events).disk; id in d.intents && d.intents[id].status == Confirmed
    ensures exists k :: ConfirmedAt(rules, s, events, k, Run(rules, s, events).disk.intents[id])
  {
    ConfirmedByAnAnswer(rules, s, events, id);
  }

  /** Hence no activation succeeds for a payment the backend has not confirmed. */
  lemma ActivatedWasPaid(rules: Rules, s: State, events: seq<Event>, i: ActivateInputs)
    requires NothingConfirmed(s) && Follows(s)
    requires Activate(rules, Run(rules, s, events), i).1.Ok?
    ensures Run(rules, s, events).active.Some?
    ensures exists k :: ConfirmedAt(rules, s, events, k, Run(rules, s, events).active.value)
  {
    MemoryFollowsDisk(rules, s, events);
    ConfirmedWasAnswered(rules, s, events, Run(rules, s, events).active.value.archiveId);
  }

  // ----- which licences are stored -----

  /** Over every run, crashes included: every stored licence was there at the start, or it
      fits the request of an activation or a refresh of the run. */
  lemma {:induction false} StoredLicencesFit(rules: Rules, s: State, events: seq<Event>, id: string)
    requires id in Run(rules, s, events).disk.licenses
    ensures var g := Run(rules, s, events).disk.licenses[id];
      || (id in s.disk.licenses && s.disk.licenses[id] == g)
      || (g.payload.archiveId == id && exists k :: 0 <= k < |events| && AskedFor(events[k].op, g))
    decreases |events|
  {
    if events != [] {
      var next, g := Next(rules, s, events[0]), Run(rules, s, events).disk.licenses[id];
      StoredLicencesFit(rules, next, events[1..], id);
      StepStaysAllowed(rules, s, events[0].op);
      if k :| 0 <= k < |events[1..]| && AskedFor(events[1..][k].op, g) {
        assert events[k + 1] == events[1..][k];
      } else if AskedFor(events[0].op, g) {
      }
    }
  }
}
