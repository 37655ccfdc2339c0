/** What runs of the session machine guarantee: when a session ends, where an installed
    session comes from, and what closing and cancelling are good for.
    Models apps/viewer/src-tauri/src/archive_service.rs and renderer.rs. */
module SessionRuns {
  import opened Outcomes
  import opened Viewer
  import opened Renderers
  import opened Sessions

  // ----- deadlines -----

  /** Enforcement refuses exactly a running session that has reached its deadline, and locks
      its archive; anything else it lets pass unchanged. */
  lemma EnforcesExactly(s: Session, now: int)
    ensures var (after, r) := Enforce(s, now);
      && (r == Err(RefreshRequired) <==> s.Unwrapped? && s.deadline <= now)
      && (r.Err? ==> r == Err(RefreshRequired) && after == Locked(s.archive))
      && (r.Ok? ==> after == s)
      && (after.Unwrapped? ==> now < after.deadline)
  {
  }

  /** A token relocks exactly the running session it was taken from, from its deadline on. */
  lemma ExpiresExactly(s: Session, token: DeadlineToken, now: int)
    ensures var (after, r) := ExpireSession(s, token, now);
      && (r == Ok(true) <==> s.Unwrapped? && token == DeadlineToken(s.serial, s.deadline) && s.deadline <= now)
      && (r == Ok(true) ==> after == Locked(s.archive))
      && (r != Ok(true) ==> r == Ok(false) && after == s)
  {
  }

  /** A running session has its deadline after `now`, or was installed after number `serial`. */
  predicate InTime(w: World, serial: nat, now: int) {
    && serial <= w.lastSerial
    && (w.session.Unwrapped? ==> now < w.session.deadline || w.session.serial > serial)
  }

  lemma {:induction false} StaysInTime(w: World, steps: seq<Step>, serial: nat, now: int)
    requires InTime(w, serial, now)
    ensures InTime(Run(w, steps), serial, now)
    decreases |steps|
  {
    if steps != [] { StaysInTime(Take(w, steps[0]), steps[1..], serial, now); }
  }

  /** An operation enforces the deadline in one locked section and does its work in a later
      one, and other threads may come in between. Whatever they do, no open begins, no bytes
      are read and nothing is shown in a session that has reached its deadline at `now`; the
      one exception is a session installed in between. */
  lemma NoAccessAfterDeadline(w: World, now: int, steps: seq<Step>)
    requires w.session.Unwrapped? ==> w.session.serial <= w.lastSerial
    ensures var later := Run(Take(w, EnforceDeadline(now)), steps);
      var inTime := later.session.Unwrapped? && (now < later.session.deadline || later.session.serial > w.lastSerial);
      && (forall fileId, kind :: BeginOpen(later.session, fileId, kind).1.Ok? ==> inTime)
      && (forall request, kind, readable :: ReadOpen(later.session, request, kind, readable).Ok? ==> inTime)
      && (forall o :: CompleteOpen(later.session, o).1.Ok? ==> inTime)
      && (forall handle, kind :: ReadShown(later.session, handle, kind).Ok? ==> inTime)
  {
    EnforcesExactly(w.session, now);
    StaysInTime(Take(w, EnforceDeadline(now)), steps, w.lastSerial, now);
  }

  lemma {:induction false} NoInstallNoSerial(w: World, steps: seq<Step>)
    requires forall k :: 0 <= k < |steps| ==> !steps[k].FinishInstall?
    ensures Run(w, steps).lastSerial == w.lastSerial
    decreases |steps|
  {
    if steps != [] {
      assert forall k :: 0 <= k < |steps[1..]| ==> steps[1..][k] == steps[k + 1];
      assert !steps[0].FinishInstall?;
      NoInstallNoSerial(Take(w, steps[0]), steps[1..]);
    }
  }

  /** As long as no installation finishes, a running session is one whose deadline is still
      to come. */
  lemma EnforcedUntilInstalled(before: seq<Step>, now: int, steps: seq<Step>)
    requires forall k :: 0 <= k < |steps| ==> !steps[k].FinishInstall?
    ensures var later := Run(Take(Run(START, before), EnforceDeadline(now)), steps);
      later.session.Unwrapped? ==> now < later.session.deadline
  {
    var w := Run(START, before);
    RunKeeps(START, before);
    EnforcesExactly(w.session, now);
    var enforced := Take(w, EnforceDeadline(now));
    StaysInTime(enforced, steps, w.lastSerial, now);
    NoInstallNoSerial(enforced, steps);
    StepKeeps(w, EnforceDeadline(now));
    RunKeeps(enforced, steps);
  }

  /** The exception is real: an installation that finishes between the two sections opens a
      session past its deadline to the operation. */
  lemma LateInstallSlipsThrough() returns (before: seq<Step>, now: int, steps: seq<Step>)
    ensures var later := Run(Take(Run(START, before), EnforceDeadline(now)), steps);
      later.session.Unwrapped? && later.session.deadline <= now && BeginOpen(later.session, "file", Kind.Pdf).1.Ok?
  {
    var verified, files := VerifiedIdentity("a", "f", "p"), [FileInfo("file", 1, Kind.Pdf)];
    before, now, steps := [FinishOpen(verified), StartInstall("a", "f", files, 100)], 150, [FinishInstall(0)];
    var locked := Take(START, FinishOpen(verified));
    var started := Take(locked, StartInstall("a", "f", files, 100));
    assert before[1..] == [StartInstall("a", "f", files, 100)] && before[1..][1..] == [];
    assert Run(START, before) == Run(locked, before[1..]) == Run(started, []);
    assert started.installing == [Installing(verified, Reader(verified, files), 100)];
    assert steps[1..] == [];
    assert Run(Take(started, EnforceDeadline(now)), steps) == Take(Take(started, EnforceDeadline(now)), FinishInstall(0));
  }

  /** Number `serial` is the session with this archive and deadline, or over. */
  predicate IsOrOver(w: World, serial: nat, archive: VerifiedIdentity, deadline: int) {
    && serial <= w.lastSerial
    && (w.session.Unwrapped? && w.session.serial == serial ==> w.session.archive == archive && w.session.deadline == deadline)
  }

  lemma {:induction false} StaysIsOrOver(w: World, steps: seq<Step>, serial: nat, archive: VerifiedIdentity, deadline: int)
    requires IsOrOver(w, serial, archive, deadline)
    ensures IsOrOver(Run(w, steps), serial, archive, deadline)
    decreases |steps|
  {
    if steps != [] { StaysIsOrOver(Take(w, steps[0]), steps[1..], serial, archive, deadline); }
  }

  /** A token taken from a running session relocks, after any run, exactly if that session is
      still running and its deadline has come. */
  lemma TokenRelocksItsSession(w: World, steps: seq<Step>, at: int)
    requires w.session.Unwrapped? && w.session.serial <= w.lastSerial
    ensures var (later, token) := (Run(w, steps), DeadlineToken(w.session.serial, w.session.deadline));
      && (ExpireSession(later.session, token, at).1 == Ok(true)
          <==> later.session.Unwrapped? && later.session.serial == w.session.serial && w.session.deadline <= at)
      && (ExpireSession(later.session, token, at).1 == Ok(true) ==>
            Take(later, Expire(token, at)).session == Locked(w.session.archive))
  {
    StaysIsOrOver(w, steps, w.session.serial, w.session.archive, w.session.deadline);
  }

  // ----- where a session comes from -----

  ghost predicate Started(steps: seq<Step>, expected: VerifiedIdentity, reader: Reader, deadline: int) {
    && FinishOpen(expected) in steps && reader.openedOn == expected
    && StartInstall(expected.archiveId, expected.fingerprint, reader.files, deadline) in steps
  }

  ghost predicate HasOrigin(steps: seq<Step>, w: World) {
    && (Current(w.session).Some? ==> FinishOpen(Current(w.session).value) in steps)
    && (w.session.Unwrapped? ==> Started(steps, w.session.archive, w.session.reader, w.session.deadline))
    && forall k :: 0 <= k < |w.installing| ==>
         Started(steps, w.installing[k].expected, w.installing[k].reader, w.installing[k].deadline)
  }

  lemma {:induction false} RunSnoc(w: World, steps: seq<Step>, step: Step)
    ensures Run(w, steps + [step]) == Take(Run(w, steps), step)
    decreases |steps|
  {
    if steps == [] {
      assert steps + [step] == [step] && [step][1..] == [] && Run(Take(w, step), []) == Take(w, step);
    } else {
      assert (steps + [step])[1..] == steps[1..] + [step];
      RunSnoc(Take(w, steps[0]), steps[1..], step);
    }
  }

  lemma StartedBefore(steps: seq<Step>, step: Step, i: Installing)
    requires Started(steps, i.expected, i.reader, i.deadline)
    ensures Started(steps + [step], i.expected, i.reader, i.deadline)
  {
  }

  /** What is being installed keeps its origin, whatever is added to it or taken away. */
  lemma InstallingHasOrigin(steps: seq<Step>, w: World, step: Step)
    requires HasOrigin(steps, w)
    ensures forall i :: i in Take(w, step).installing ==> Started(steps + [step], i.expected, i.reader, i.deadline)
  {
    var after := Take(w, step);
    if step.FinishInstall? && step.which < |w.installing| { WithoutMembers(w.installing, step.which); }
    forall i | i in after.installing ensures Started(steps + [step], i.expected, i.reader, i.deadline) {
      if i in w.installing {
        StartedBefore(steps, step, i);
      } else {
        assert step.StartInstall? && step in steps + [step] && FinishOpen(i.expected) in steps;
      }
    }
  }

  lemma StepHasOrigin(steps: seq<Step>, w: World, step: Step)
    requires HasOrigin(steps, w)
    ensures HasOrigin(steps + [step], Take(w, step))
  {
    InstallingHasOrigin(steps, w, step);
    assert step in steps + [step];
    if w.session.Unwrapped? {
      StartedBefore(steps, step, Installing(w.session.archive, w.session.reader, w.session.deadline));
    }
    if step.FinishInstall? && step.which < |w.installing| { StartedBefore(steps, step, w.installing[step.which]); }
  }

  /** In every interleaving: an archive in the session is one whose verification finished in
      this run, and a running session has the files and the deadline that an installation
      for exactly that archive brought. */
  lemma {:induction false} SessionHasAnOrigin(steps: seq<Step>)
    ensures HasOrigin(steps, Run(START, steps))
    decreases |steps|
  {
    if steps != [] {
      var before, last := steps[..|steps| - 1], steps[|steps| - 1];
      assert steps == before + [last];
      SessionHasAnOrigin(before);
      RunSnoc(START, before, last);
      StepHasOrigin(before, Run(START, before), last);
    }
  }

  // ----- what is shown is a file of the archive -----

  predicate IsFile(files: seq<FileInfo>, fileId: string, sizeBytes: nat, kind: Kind) {
    FindFile(files, fileId, kind).Some? && FindFile(files, fileId, kind).value.sizeBytes == sizeBytes
  }

  ghost predicate FilesOk(w: World) {
    && (forall k :: 0 <= k < |w.opening| ==> OpeningFits(w, w.opening[k]))
    && (w.session.Unwrapped? && w.session.renderers.current.Some? ==>
          var shown := w.session.renderers.current.value;
          IsFile(w.session.reader.files, shown.fileId, shown.sizeBytes, shown.kind))
  }

  /** Bytes of the running session were read from one of its files. */
  predicate OpeningFits(w: World, o: Opening) {
    && o.source.serial <= w.lastSerial
    && (w.session.Unwrapped? && w.session.serial == o.source.serial ==>
          IsFile(w.session.reader.files, o.source.fileId, o.sizeBytes, o.kind))
  }

  lemma StepKeepsFiles(w: World, step: Step)
    requires Inv(w) && FilesOk(w)
    ensures FilesOk(Take(w, step))
  {
    var after := Take(w, step);
    match step
    case ReadForRenderer(request, wanted, readable) =>
    case CompleteRenderer(k) => CompleteKeepsFiles(w, k);
    case AbandonRenderer(k) =>
      if k < |w.opening| { WithoutMembers(w.opening, k); }
    case _ => OpeningsStay(w, step);
  }

  lemma OpeningsStay(w: World, step: Step)
    requires FilesOk(w) && !step.ReadForRenderer? && !step.CompleteRenderer? && !step.AbandonRenderer?
    ensures Take(w, step).opening == w.opening
    ensures FilesOk(Take(w, step))
  {
    var after := Take(w, step);
    forall k | 0 <= k < |w.opening| ensures OpeningFits(after, w.opening[k]) {
      assert OpeningFits(w, w.opening[k]);
    }
  }

  lemma CompleteKeepsFiles(w: World, k: nat)
    requires Inv(w) && FilesOk(w)
    ensures FilesOk(Take(w, CompleteRenderer(k)))
  {
    if k < |w.opening| {
      var o := w.opening[k];
      WithoutMembers(w.opening, k);
      assert OpeningFits(w, o) && OpeningOk(o, w.begun);
      if w.session.Unwrapped? && PendingFile(w.session.renderers, o.requestId, o.kind).Ok? { CompletesItsOwn(w, o); }
    }
  }

  lemma {:induction false} RunKeepsFiles(w: World, steps: seq<Step>)
    requires Inv(w) && FilesOk(w)
    ensures FilesOk(Run(w, steps))
    decreases |steps|
  {
    if steps != [] {
      StepKeeps(w, steps[0]);
      StepKeepsFiles(w, steps[0]);
      RunKeepsFiles(Take(w, steps[0]), steps[1..]);
    }
  }

  lemma {:induction false} FoundIsListed(files: seq<FileInfo>, fileId: string, kind: Kind)
    ensures FindFile(files, fileId, kind).Some? ==>
      var file := FindFile(files, fileId, kind).value;
      file in files && file.fileId == fileId && file.kind == kind
  {
    if files != [] && files[0].fileId != fileId { FoundIsListed(files[1..], fileId, kind); }
  }

  /** In every interleaving: what is shown is a file of the running session's archive, with
      its own size and shown by the renderer of its own kind. */
  lemma ShownIsAFile(steps: seq<Step>)
    ensures var session := Run(START, steps).session;
      session.Unwrapped? && session.renderers.current.Some? ==>
        var shown := session.renderers.current.value;
        FileInfo(shown.fileId, shown.sizeBytes, shown.kind) in session.reader.files
    ensures var session := Run(START, steps).session;
      forall handle, kind :: ReadShown(session, handle, kind).Ok? ==>
        var shown := ReadShown(session, handle, kind).value;
        shown.kind == kind && shown.handle == handle && FileInfo(shown.fileId, shown.sizeBytes, kind) in session.reader.files
  {
    RunKeepsFiles(START, steps);
    var session := Run(START, steps).session;
    if session.Unwrapped? && session.renderers.current.Some? {
      FoundIsListed(session.reader.files, session.renderers.current.value.fileId, session.renderers.current.value.kind);
    }
  }

  // ----- closing and cancelling -----

  /** A closed handle is never accepted again. */
  lemma ClosedStaysClosed(before: seq<Step>, handle: string, after: seq<Step>)
    ensures var w := Run(START, before);
      Accepts(w, handle) ==> !Accepts(Run(Take(w, CloseRenderer(handle)), after), handle)
  {
    var w := Run(START, before);
    if Accepts(w, handle) {
      RunSnoc(START, before, CloseRenderer(handle));
      assert Run(START, before + [CloseRenderer(handle)]) == Take(w, CloseRenderer(handle));
      var closed := [CloseRenderer(handle)];
      assert closed[1..] == [] && Run(w, closed) == Run(Take(w, CloseRenderer(handle)), []);
      HandlesNeverRevive(before, closed, after, handle);
    }
  }

  /** A request that was cancelled while pending, or that a later one has replaced, is never
      read for and never completed. */
  lemma GivenUpStaysGivenUp(w: World, serial: nat, n: nat, steps: seq<Step>)
    requires Inv(w) && Completed(w, serial, n)
    ensures var later := Run(w, steps).session;
      && (forall kind, readable :: ReadOpen(later, RequestId(serial, n), kind, readable).Err?)
      && (forall o: Opening :: o.requestId == RequestId(serial, n) ==> CompleteOpen(later, o).1.Err?)
  {
    StaysCompleted(w, steps, serial, n);
    RunKeeps(w, steps);
    var later := Run(w, steps).session;
    if later.Unwrapped? && later.renderers.pending.Some? {
      IdentifiersInjective(serial, n, later.serial, later.renderers.nextRequest);
    }
  }

  lemma CancelGivesUp(w: World)
    requires Inv(w) && w.session.Unwrapped? && w.session.renderers.pending.Some?
    ensures var (serial, n) := (w.session.serial, w.session.renderers.nextRequest);
      && w.session.renderers.pending.value.requestId == RequestId(serial, n)
      && Inv(Take(w, CancelRenderer(RequestId(serial, n)))) && Completed(Take(w, CancelRenderer(RequestId(serial, n))), serial, n)
  {
    StepKeeps(w, CancelRenderer(RequestId(w.session.serial, w.session.renderers.nextRequest)));
  }

  lemma BeginGivesUp(w: World, fileId: string, kind: Kind)
    requires Inv(w) && BeginOpen(w.session, fileId, kind).1.Ok?
    ensures var (serial, n) := (w.session.serial, w.session.renderers.nextRequest);
      && BeginOpen(w.session, fileId, kind).1.value == RequestId(serial, n + 1)
      && Inv(Take(w, BeginRenderer(fileId, kind))) && Completed(Take(w, BeginRenderer(fileId, kind)), serial, n)
      && Gone(Take(w, BeginRenderer(fileId, kind)), serial, n)
  {
    StepKeeps(w, BeginRenderer(fileId, kind));
  }

  /** Cancelling the pending request is final. */
  lemma CancelledNeverOpens(w: World, steps: seq<Step>)
    requires Inv(w) && w.session.Unwrapped? && w.session.renderers.pending.Some?
    ensures var id := w.session.renderers.pending.value.requestId;
      var later := Run(Take(w, CancelRenderer(id)), steps).session;
      && (forall kind, readable :: ReadOpen(later, id, kind, readable).Err?)
      && (forall o: Opening :: o.requestId == id ==> CompleteOpen(later, o).1.Err?)
  {
    var serial, n := w.session.serial, w.session.renderers.nextRequest;
    CancelGivesUp(w);
    GivenUpStaysGivenUp(Take(w, CancelRenderer(RequestId(serial, n))), serial, n, steps);
  }

  /** A new request replaces the pending one and the shown renderer for good. */
  lemma ReplacedNeverOpens(w: World, fileId: string, kind: Kind, steps: seq<Step>)
    requires Inv(w) && BeginOpen(w.session, fileId, kind).1.Ok?
    ensures var later := Run(Take(w, BeginRenderer(fileId, kind)), steps);
      && (w.session.renderers.pending.Some? ==>
            forall o: Opening :: o.requestId == w.session.renderers.pending.value.requestId ==> CompleteOpen(later.session, o).1.Err?)
      && (w.session.renderers.current.Some? ==> !Accepts(later, w.session.renderers.current.value.handle))
  {
    var serial, n := w.session.serial, w.session.renderers.nextRequest;
    BeginGivesUp(w, fileId, kind);
    var begun := Take(w, BeginRenderer(fileId, kind));
    GivenUpStaysGivenUp(begun, serial, n, steps);
    StaysCompleted(begun, steps, serial, n);
    RunKeeps(begun, steps);
    GoneIsRefused(Run(begun, steps), serial, n);
  }
}
