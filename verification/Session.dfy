/** The session machine of the viewer, one lock-protected section at a time.
    Models apps/viewer/src-tauri/src/archive_service.rs and session.rs. */
module Sessions {
  import opened Outcomes
  import opened Viewer
  import opened Renderers

  /** Everything the viewer pins about the archive file it verified. */
  datatype VerifiedIdentity = VerifiedIdentity(archiveId: string, fingerprint: string, file: string)

  datatype FileInfo = FileInfo(fileId: string, sizeBytes: nat, kind: Kind)

  /** A reader remembers the identity it was opened on. */
  datatype Reader = Reader(openedOn: VerifiedIdentity, files: seq<FileInfo>)

  datatype Session =
    | Empty
    | Locked(archive: VerifiedIdentity)
    | Unwrapped(archive: VerifiedIdentity, reader: Reader, deadline: int, serial: nat, renderers: Registry)

  datatype DeadlineToken = DeadlineToken(serial: nat, deadline: int)

  /** An installation between its two locked sections: the reader is open, not installed. */
  datatype Installing = Installing(expected: VerifiedIdentity, reader: Reader, deadline: int)

  /** A renderer open between its two locked sections: the bytes are read, not shown. */
  datatype Opening = Opening(requestId: string, kind: Kind, sizeBytes: nat, source: Source)

  /** The shared state, the operations under way in other threads, and a record of which
      file every request was begun for. */
  datatype World = World(
    session: Session,
    lastSerial: nat,
    installing: seq<Installing>,
    opening: seq<Opening>,
    begun: map<string, string>)

  const START := World(Empty, 0, [], [], map[])

  function Current(s: Session): Option<VerifiedIdentity> {
    match s
    case Empty => None
    case Locked(archive) => Some(archive)
    case Unwrapped(archive, _, _, _, _) => Some(archive)
  }

  function FindFile(files: seq<FileInfo>, fileId: string, kind: Kind): Option<FileInfo> {
    if files == [] then None
    else if files[0].fileId == fileId then if files[0].kind == kind then Some(files[0]) else None
    else FindFile(files[1..], fileId, kind)
  }

  lemma {:induction false} FoundFile(files: seq<FileInfo>, fileId: string, kind: Kind)
    ensures FindFile(files, fileId, kind).Some? ==>
      FindFile(files, fileId, kind).value in files && FindFile(files, fileId, kind).value.fileId == fileId
  {
    if files != [] && files[0].fileId != fileId { FoundFile(files[1..], fileId, kind); }
  }

  // ----- one locked section at a time -----

  datatype Step =
    | StartOpen
    | FinishOpen(verified: VerifiedIdentity)
    | CloseArchive
    | StartInstall(archiveId: string, fingerprint: string, files: seq<FileInfo>, deadline: int)
    | FinishInstall(which: nat)
    | EnforceDeadline(now: int)
    | Expire(token: DeadlineToken, at: int)
    | Relock
    | BeginRenderer(fileId: string, kind: Kind)
    | CancelRenderer(requestId: string)
    | ReadForRenderer(request: string, wanted: Kind, readable: bool)
    | CompleteRenderer(which: nat)
    | AbandonRenderer(which: nat)
    | CloseRenderer(handle: string)

  function Without<T>(s: seq<T>, k: nat): seq<T>
    requires k < |s|
  {
    s[..k] + s[k + 1..]
  }

  function ExpireSession(s: Session, token: DeadlineToken, now: int): (Session, Result<bool>) {
    if s.Unwrapped? && s.serial == token.serial && s.deadline == token.deadline && now >= s.deadline
    then (Locked(s.archive), Ok(true)) else (s, Ok(false))
  }

  function Enforce(s: Session, now: int): (Session, Result<()>) {
    if s.Unwrapped? && now >= s.deadline then (Locked(s.archive), Err(RefreshRequired)) else (s, Ok(()))
  }

  /** The first half of an installation: the identity the reader must be opened on. */
  function ExpectedIdentity(s: Session, archiveId: string, fingerprint: string): Result<VerifiedIdentity> {
    match Current(s)
    case Some(archive) => if archive.archiveId == archiveId && archive.fingerprint == fingerprint then Ok(archive) else Err(InvalidLicense)
    case None => Err(InvalidLicense)
  }

  /** The second half: installs only if the session still holds exactly that identity. */
  function Install(s: Session, lastSerial: nat, i: Installing): (Session, nat, Result<()>) {
    if Current(s) != Some(i.expected) then (s, lastSerial, Err(InvalidLicense))
    else
      (Unwrapped(i.expected, i.reader, i.deadline, lastSerial + 1, NewRegistry(lastSerial + 1)), lastSerial + 1, Ok(()))
  }

  function BeginOpen(s: Session, fileId: string, kind: Kind): (Session, Result<string>) {
    if !s.Unwrapped? then (s, Err(InvalidLicense))
    else if FindFile(s.reader.files, fileId, kind).None? then (s, Err(UnsupportedFile))
    else
      var (g, r) := Begin(s.renderers, fileId, kind);
      (s.(renderers := g), r)
  }

  function ReadOpen(s: Session, requestId: string, kind: Kind, readable: bool): Result<Opening> {
    var _ :- Need(s.Unwrapped?, InvalidLicense);
    var fileId :- PendingFile(s.renderers, requestId, kind);
    var file := FindFile(s.reader.files, fileId, kind);
    var _ :- Need(file.Some?, UnsupportedFile);
    var _ :- Need(readable, InvalidArchive);
    Ok(Opening(requestId, kind, file.value.sizeBytes, Source(s.serial, fileId)))
  }

  function CompleteOpen(s: Session, o: Opening): (Session, Result<string>) {
    if !s.Unwrapped? then (s, Err(InvalidLicense))
    else
      var (g, r) := Complete(s.renderers, o.requestId, o.sizeBytes, o.kind, o.source);
      (s.(renderers := g), r)
  }

  /** The renderer behind a handle, for a read by it. */
  function ReadShown(s: Session, handle: string, kind: Kind): Result<Open> {
    var _ :- Need(s.Unwrapped?, InvalidLicense);
    Get(s.renderers, handle, kind)
  }

  function Take(w: World, step: Step): World {
    match step
    case StartOpen => w.(session := Empty)
    case FinishOpen(verified) => w.(session := Locked(verified))
    case CloseArchive => w.(session := Empty)
    case StartInstall(archiveId, fingerprint, files, deadline) =>
      (match ExpectedIdentity(w.session, archiveId, fingerprint)
       case Err(_) => w
       case Ok(expected) => w.(installing := w.installing + [Installing(expected, Reader(expected, files), deadline)]))
    case FinishInstall(k) =>
      if k >= |w.installing| then w
      else
        var (s, serial, _) := Install(w.session, w.lastSerial, w.installing[k]);
        w.(session := s, lastSerial := serial, installing := Without(w.installing, k))
    case EnforceDeadline(now) => w.(session := Enforce(w.session, now).0)
    case Expire(token, at) => w.(session := ExpireSession(w.session, token, at).0)
    case Relock => if w.session.Unwrapped? then w.(session := Locked(w.session.archive)) else w
    case BeginRenderer(fileId, kind) =>
      var (s, r) := BeginOpen(w.session, fileId, kind);
      if r.Ok? then w.(session := s, begun := w.begun[r.value := fileId]) else w.(session := s)
    case CancelRenderer(requestId) =>
      if w.session.Unwrapped? then w.(session := w.session.(renderers := Cancel(w.session.renderers, requestId))) else w
    case ReadForRenderer(request, wanted, readable) =>
      (match ReadOpen(w.session, request, wanted, readable)
       case Err(_) => w
       case Ok(o) => w.(opening := w.opening + [o]))
    case CompleteRenderer(k) =>
      if k >= |w.opening| then w
      else w.(session := CompleteOpen(w.session, w.opening[k]).0, opening := Without(w.opening, k))
    case AbandonRenderer(k) => if k >= |w.opening| then w else w.(opening := Without(w.opening, k))
    case CloseRenderer(handle) =>
      if w.session.Unwrapped? then w.(session := w.session.(renderers := Close(w.session.renderers, handle).0)) else w
  }

  /** Any interleaving of any number of threads is a sequence of locked sections. */
  function Run(w: World, steps: seq<Step>): World
    decreases |steps|
  {
    if steps == [] then w else Run(Take(w, steps[0]), steps[1..])
  }

  // ----- what every interleaving keeps -----

  /** A registry shows at most one thing, and it belongs to the latest request. */
  predicate RegistryOk(g: Registry, begun: map<string, string>) {
    var id := RequestId(g.serial, g.nextRequest);
    && (g.pending.Some? ==>
          && g.current.None? && g.pending.value.requestSerial == g.nextRequest && g.pending.value.requestId == id
          && id in begun && begun[id] == g.pending.value.fileId)
    && (g.current.Some? ==>
          && g.pending.None? && g.current.value.handle == Handle(g.serial, g.nextRequest)
          && id in begun && begun[id] == g.current.value.fileId
          && g.current.value.source == Source(g.serial, g.current.value.fileId))
  }

  predicate SessionOk(s: Session, lastSerial: nat, begun: map<string, string>) {
    s.Unwrapped? ==>
      && s.reader.openedOn == s.archive && s.renderers.serial == s.serial <= lastSerial
      && RegistryOk(s.renderers, begun)
  }

  /** The bytes were read in the session that issued the request, from the file the
      request was begun for. */
  ghost predicate OpeningOk(o: Opening, begun: map<string, string>) {
    && o.requestId in begun && begun[o.requestId] == o.source.fileId
    && exists n: nat :: o.requestId == RequestId(o.source.serial, n)
  }

  /** Request ids on record were issued, none of them is still to come. */
  ghost predicate Issued(w: World, id: string) {
    exists s: nat, n: nat :: id == RequestId(s, n) && IssuedBy(w, s, n)
  }

  predicate IssuedBy(w: World, serial: nat, request: nat) {
    serial <= w.lastSerial && (w.session.Unwrapped? && w.session.serial == serial ==> request <= w.session.renderers.nextRequest)
  }

  ghost predicate Inv(w: World) {
    && SessionOk(w.session, w.lastSerial, w.begun)
    && (forall k :: 0 <= k < |w.installing| ==> w.installing[k].reader.openedOn == w.installing[k].expected)
    && (forall k :: 0 <= k < |w.opening| ==> OpeningOk(w.opening[k], w.begun))
    && (forall id :: id in w.begun ==> Issued(w, id))
  }

  lemma WithoutMembers<T>(s: seq<T>, k: nat)
    requires k < |s|
    ensures forall i :: 0 <= i < |Without(s, k)| ==> Without(s, k)[i] in s
  {
  }

  lemma FreshId(w: World)
    requires Inv(w) && w.session.Unwrapped?
    ensures RequestId(w.session.serial, w.session.renderers.nextRequest + 1) !in w.begun
  {
    var serial, n := w.session.serial, w.session.renderers.nextRequest + 1;
    if RequestId(serial, n) in w.begun {
      assert Issued(w, RequestId(serial, n));
      var s: nat, m: nat :| RequestId(serial, n) == RequestId(s, m) && IssuedBy(w, s, m);
      IdentifiersInjective(serial, n, s, m);
    }
  }

  lemma BeginKeeps(w: World, fileId: string, kind: Kind)
    requires Inv(w)
    ensures Inv(Take(w, BeginRenderer(fileId, kind)))
  {
    var after := Take(w, BeginRenderer(fileId, kind));
    if w.session.Unwrapped? && after != w {
      FreshId(w);
      var serial, n := w.session.serial, w.session.renderers.nextRequest + 1;
      forall id | id in after.begun ensures Issued(after, id) {
        if id in w.begun {
          assert Issued(w, id);
          var s: nat, m: nat :| id == RequestId(s, m) && IssuedBy(w, s, m);
          assert id == RequestId(s, m) && IssuedBy(after, s, m);
        } else {
          assert id == RequestId(serial, n) && IssuedBy(after, serial, n);
        }
      }
      forall k | 0 <= k < |w.opening| ensures OpeningOk(w.opening[k], after.begun) {
        assert OpeningOk(w.opening[k], w.begun);
      }
    }
  }

  lemma ReadKeeps(w: World, requestId: string, kind: Kind, readable: bool)
    requires Inv(w)
    ensures Inv(Take(w, ReadForRenderer(requestId, kind, readable)))
  {
    var after := Take(w, ReadForRenderer(requestId, kind, readable));
    var read := ReadOpen(w.session, requestId, kind, readable);
    if read.Ok? {
      assert read.value.requestId == RequestId(read.value.source.serial, w.session.renderers.nextRequest);
      assert OpeningOk(read.value, w.begun);
    }
    forall id | id in after.begun ensures Issued(after, id) {
      SameIssued(w, after, id);
    }
  }

  /** Steps that leave the serial and the request counter of the session alone, or end
      the session, keep every issued id issued. */
  lemma SameIssued(w: World, after: World, id: string)
    requires Issued(w, id) && w.lastSerial == after.lastSerial
    requires after.session.Unwrapped? ==>
      && w.session.Unwrapped? && w.session.serial == after.session.serial
      && w.session.renderers.nextRequest <= after.session.renderers.nextRequest
    ensures Issued(after, id)
  {
    var s: nat, n: nat :| id == RequestId(s, n) && IssuedBy(w, s, n);
    assert id == RequestId(s, n) && IssuedBy(after, s, n);
  }

  /** Two requests of different sessions or of different serials never meet: the bytes
      that complete a request were read for that request. */
  lemma CompletesItsOwn(w: World, o: Opening)
    requires Inv(w) && OpeningOk(o, w.begun) && w.session.Unwrapped?
    requires PendingFile(w.session.renderers, o.requestId, o.kind).Ok?
    ensures o.source == Source(w.session.serial, w.session.renderers.pending.value.fileId)
  {
    var n: nat :| o.requestId == RequestId(o.source.serial, n);
    IdentifiersInjective(o.source.serial, n, w.session.serial, w.session.renderers.nextRequest);
  }

  lemma CompleteKeeps(w: World, k: nat)
    requires Inv(w)
    ensures Inv(Take(w, CompleteRenderer(k)))
  {
    var after := Take(w, CompleteRenderer(k));
    if k < |w.opening| {
      var o := w.opening[k];
      WithoutMembers(w.opening, k);
      if w.session.Unwrapped? && PendingFile(w.session.renderers, o.requestId, o.kind).Ok? { CompletesItsOwn(w, o); }
    }
    forall id | id in after.begun ensures Issued(after, id) {
      SameIssued(w, after, id);
    }
  }

  lemma FinishInstallKeeps(w: World, k: nat)
    requires Inv(w)
    ensures Inv(Take(w, FinishInstall(k)))
  {
    var after := Take(w, FinishInstall(k));
    if k < |w.installing| { WithoutMembers(w.installing, k); }
    forall id | id in after.begun ensures Issued(after, id) {
      var s: nat, n: nat :| id == RequestId(s, n) && IssuedBy(w, s, n);
      assert id == RequestId(s, n) && IssuedBy(after, s, n);
    }
  }

  lemma StepKeeps(w: World, step: Step)
    requires Inv(w)
    ensures Inv(Take(w, step))
  {
    match step
    case BeginRenderer(fileId, kind) => BeginKeeps(w, fileId, kind);
    case ReadForRenderer(request, wanted, readable) => ReadKeeps(w, request, wanted, readable);
    case CompleteRenderer(k) => CompleteKeeps(w, k);
    case FinishInstall(k) => FinishInstallKeeps(w, k);
    case _ => OtherKeeps(w, step);
  }

  lemma OtherKeeps(w: World, step: Step)
    requires Inv(w)
    requires !step.BeginRenderer? && !step.ReadForRenderer? && !step.CompleteRenderer? && !step.FinishInstall?
    ensures Inv(Take(w, step))
  {
    var after := Take(w, step);
    if step.AbandonRenderer? && step.which < |w.opening| { WithoutMembers(w.opening, step.which); }
    forall id | id in after.begun ensures Issued(after, id) {
      SameIssued(w, after, id);
    }
  }

  lemma {:induction false} RunKeeps(w: World, steps: seq<Step>)
    requires Inv(w)
    ensures Inv(Run(w, steps))
    decreases |steps|
  {
    if steps != [] {
      StepKeeps(w, steps[0]);
      RunKeeps(Take(w, steps[0]), steps[1..]);
    }
  }

  /** In every interleaving: the installed reader was opened on the identity stored beside
      it, and what is shown was read by this very session from the file its request was
      begun for. */
  lemma ShownBelongs(steps: seq<Step>)
    ensures var w := Run(START, steps);
      w.session.Unwrapped? ==>
        && w.session.reader.openedOn == w.session.archive
        && (w.session.renderers.current.Some? ==>
              var shown := w.session.renderers.current.value;
              var id := RequestId(w.session.serial, w.session.renderers.nextRequest);
              && shown.source == Source(w.session.serial, shown.fileId)
              && id in w.begun && w.begun[id] == shown.fileId
              && shown.handle == Handle(w.session.serial, w.session.renderers.nextRequest))
  {
    RunKeeps(START, steps);
  }

  // ----- tokens -----

  /** Session number `serial` has ended or was replaced. */
  predicate Over(w: World, serial: nat) {
    serial <= w.lastSerial && (w.session.Unwrapped? ==> w.session.serial != serial)
  }

  lemma {:induction false} StaysOver(w: World, steps: seq<Step>, serial: nat)
    requires Over(w, serial)
    ensures Over(Run(w, steps), serial)
    decreases |steps|
  {
    if steps != [] { StaysOver(Take(w, steps[0]), steps[1..], serial); }
  }

  /** A deadline token relocks only the session it was issued for: once that session is
      over, no run brings the token back to life. */
  lemma TokensNeverRevive(w: World, steps: seq<Step>, token: DeadlineToken, now: int)
    requires Over(w, token.serial)
    ensures var later := Run(w, steps); ExpireSession(later.session, token, now) == (later.session, Ok(false))
  {
    StaysOver(w, steps, token.serial);
  }

  // ----- handles -----

  predicate Accepts(w: World, handle: string) {
    && w.session.Unwrapped? && w.session.renderers.current.Some?
    && w.session.renderers.current.value.handle == handle
  }

  /** Request `n` of session `serial` has been completed, in this world or earlier. */
  predicate Completed(w: World, serial: nat, n: nat) {
    && serial <= w.lastSerial
    && (w.session.Unwrapped? && w.session.serial == serial ==>
          w.session.renderers.nextRequest > n || (w.session.renderers.nextRequest == n && w.session.renderers.pending.None?))
  }

  predicate Gone(w: World, serial: nat, n: nat) {
    && Completed(w, serial, n)
    && (w.session.Unwrapped? && w.session.serial == serial && w.session.renderers.nextRequest == n ==>
          w.session.renderers.current.None?)
  }

  lemma {:induction false} StaysCompleted(w: World, steps: seq<Step>, serial: nat, n: nat)
    requires Completed(w, serial, n)
    ensures Completed(Run(w, steps), serial, n)
    ensures Gone(w, serial, n) ==> Gone(Run(w, steps), serial, n)
    decreases |steps|
  {
    if steps != [] {
      StaysCompleted(Take(w, steps[0]), steps[1..], serial, n);
    }
  }

  lemma GoneIsRefused(w: World, serial: nat, n: nat)
    requires Inv(w) && Completed(w, serial, n)
    ensures Gone(w, serial, n) <==> !Accepts(w, Handle(serial, n))
  {
    if w.session.Unwrapped? && w.session.renderers.current.Some? {
      IdentifiersInjective(serial, n, w.session.serial, w.session.renderers.nextRequest);
    }
  }

  /** A handle that was accepted once and has stopped being accepted is never accepted
      again, whatever happens in between. */
  lemma HandlesNeverRevive(first: seq<Step>, until: seq<Step>, after: seq<Step>, handle: string)
    requires Accepts(Run(START, first), handle)
    requires !Accepts(Run(Run(START, first), until), handle)
    ensures !Accepts(Run(Run(Run(START, first), until), after), handle)
  {
    var shown := Run(START, first);
    RunKeeps(START, first);
    var serial, n := shown.session.serial, shown.session.renderers.nextRequest;
    StaysCompleted(shown, until, serial, n);
    var refused := Run(shown, until);
    RunKeeps(shown, until);
    GoneIsRefused(refused, serial, n);
    StaysCompleted(refused, after, serial, n);
    RunKeeps(refused, after);
    GoneIsRefused(Run(refused, after), serial, n);
  }
}
