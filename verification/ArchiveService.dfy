/** The archive service as the program keeps it: one method per lock-protected section,
    each proved to be the step of the session machine it implements.
    Models apps/viewer/src-tauri/src/archive_service.rs. */
module ArchiveServices {
  import opened Outcomes
  import opened Viewer
  import opened Renderers
  import S = Sessions

  datatype SessionState =
    | Empty
    | Locked(archive: S.VerifiedIdentity)
    | Unwrapped(archive: S.VerifiedIdentity, reader: S.Reader, deadline: int, serial: nat, renderers: RendererRegistry)

  class ArchiveService {
    var session: SessionState
    var nextSessionSerial: nat

    constructor ()
      ensures Now() == S.Empty && nextSessionSerial == 0
    {
      session, nextSessionSerial := Empty, 0;
    }

    ghost function Registry(): set<object>
      reads this
    {
      if session.Unwrapped? then {session.renderers} else {}
    }

    ghost function Now(): S.Session
      reads this, Registry()
    {
      match session
      case Empty => S.Empty
      case Locked(archive) => S.Locked(archive)
      case Unwrapped(archive, reader, deadline, serial, renderers) =>
        S.Unwrapped(archive, reader, deadline, serial, renderers.Now())
    }

    method StartOpen()
      modifies `session
      ensures Now() == S.Empty
    {
      session := Empty;
    }

    method FinishOpen(verified: S.VerifiedIdentity)
      modifies `session
      ensures Now() == S.Locked(verified)
    {
      session := Locked(verified);
    }

    /** First section of an installation. */
    method ExpectedIdentity(archiveId: string, fingerprint: string) returns (r: Result<S.VerifiedIdentity>)
      ensures r == S.ExpectedIdentity(Now(), archiveId, fingerprint)
    {
      if session.Empty? || session.archive.archiveId != archiveId || session.archive.fingerprint != fingerprint {
        return Err(InvalidLicense);
      }
      return Ok(session.archive);
    }

    /** Second section: the reader was opened meanwhile, outside the lock. */
    method InstallReader(i: S.Installing) returns (r: Result<()>)
      modifies this
      ensures (Now(), nextSessionSerial, r) == S.Install(old(Now()), old(nextSessionSerial), i)
      ensures r.Ok? ==> fresh(Registry())
    {
      if session.Empty? || session.archive != i.expected {
        return Err(InvalidLicense);
      }
      nextSessionSerial := nextSessionSerial + 1;
      var renderers := new RendererRegistry(nextSessionSerial);
      session := Unwrapped(i.expected, i.reader, i.deadline, nextSessionSerial, renderers);
      return Ok(());
    }

    method EnforceDeadline(now: int) returns (r: Result<()>)
      modifies `session
      ensures (Now(), r) == S.Enforce(old(Now()), now)
      ensures Now().Unwrapped? ==> now < Now().deadline
      ensures r == Err(RefreshRequired) <==> old(Now()).Unwrapped? && old(Now()).deadline <= now
      ensures r == Ok(()) ==> Now() == old(Now())
    {
      if session.Unwrapped? && now >= session.deadline {
        session := Locked(session.archive);
        return Err(RefreshRequired);
      }
      return Ok(());
    }

    method DeadlineToken() returns (r: Result<S.DeadlineToken>)
      ensures r == if Now().Unwrapped? then Ok(S.DeadlineToken(Now().serial, Now().deadline)) else Err(InvalidLicense)
    {
      if !session.Unwrapped? {
        return Err(InvalidLicense);
      }
      return Ok(S.DeadlineToken(session.serial, session.deadline));
    }

    method ExpireSession(token: S.DeadlineToken, now: int) returns (r: Result<bool>)
      modifies `session
      ensures (Now(), r) == S.ExpireSession(old(Now()), token, now)
      ensures r == Ok(true) <==>
        old(Now()).Unwrapped? && token == S.DeadlineToken(old(Now()).serial, old(Now()).deadline) && token.deadline <= now
      ensures Now() == if r == Ok(true) then S.Locked(old(Now()).archive) else old(Now())
    {
      if !session.Unwrapped? {
        return Ok(false);
      }
      if session.serial != token.serial || session.deadline != token.deadline {
        return Ok(false);
      }
      if now < session.deadline {
        return Ok(false);
      }
      session := Locked(session.archive);
      return Ok(true);
    }

    method Relock()
      modifies `session
      ensures Now() == if old(Now()).Unwrapped? then S.Locked(old(Now()).archive) else old(Now())
    {
      if session.Unwrapped? {
        session := Locked(session.archive);
      }
    }

    method BeginRendererOpen(fileId: string, kind: Kind) returns (r: Result<string>)
      modifies Registry()
      ensures (Now(), r) == S.BeginOpen(old(Now()), fileId, kind)
    {
      if !session.Unwrapped? {
        return Err(InvalidLicense);
      }
      if S.FindFile(session.reader.files, fileId, kind) == None {
        return Err(UnsupportedFile);
      }
      r := session.renderers.BeginOpen(fileId, kind);
    }

    method CancelRendererOpen(requestId: string)
      modifies Registry()
      ensures Now() == S.Take(S.World(old(Now()), 0, [], [], map[]), S.CancelRenderer(requestId)).session
    {
      if session.Unwrapped? {
        session.renderers.CancelOpen(requestId);
      }
    }

    /** First section of an open: the file behind the request is read. */
    method ReadForRenderer(requestId: string, kind: Kind, readable: bool) returns (r: Result<S.Opening>)
      ensures r == S.ReadOpen(Now(), requestId, kind, readable)
    {
      if !session.Unwrapped? {
        return Err(InvalidLicense);
      }
      var fileId :- PendingFile(session.renderers.Now(), requestId, kind);
      var file := S.FindFile(session.reader.files, fileId, kind);
      if file == None {
        return Err(UnsupportedFile);
      }
      if !readable {
        return Err(InvalidArchive);
      }
      return Ok(S.Opening(requestId, kind, file.value.sizeBytes, Source(session.serial, fileId)));
    }

    /** Second section: what was parsed outside the lock is shown. */
    method CompleteRenderer(o: S.Opening) returns (r: Result<string>)
      modifies Registry()
      ensures (Now(), r) == S.CompleteOpen(old(Now()), o)
    {
      if !session.Unwrapped? {
        return Err(InvalidLicense);
      }
      r := session.renderers.CompleteOpen(o.requestId, o.sizeBytes, o.kind, o.source);
    }

    /** A read by handle first looks up what the handle shows. */
    method ShownBy(handle: string, kind: Kind) returns (r: Result<Open>)
      ensures r == S.ReadShown(Now(), handle, kind)
    {
      if !session.Unwrapped? {
        return Err(InvalidLicense);
      }
      var current := session.renderers.current;
      if current.None? || current.value.handle != handle || current.value.kind != kind {
        return Err(RendererClosed);
      }
      return Ok(current.value);
    }

    method RendererClose(handle: string) returns (r: Result<()>)
      modifies Registry()
      ensures r == if old(Now()).Unwrapped? then Close(old(Now()).renderers, handle).1 else Err(RendererClosed)
      ensures Now() == S.Take(S.World(old(Now()), 0, [], [], map[]), S.CloseRenderer(handle)).session
    {
      if !session.Unwrapped? {
        return Err(RendererClosed);
      }
      r := session.renderers.CloseHandle(handle);
    }
  }
}
