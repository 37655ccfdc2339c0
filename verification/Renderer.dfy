/** Renderer requests and handles.
    Models RendererRegistry of apps/viewer/src-tauri/src/renderer.rs. */
module Renderers {
  import opened Outcomes
  import opened Viewer
  import opened Bytes

  datatype Kind = Pdf | Image | Docx | Xlsx

  const MAX_U64: nat := 0xffff_ffff_ffff_ffff

  // ----- identifiers -----

  /** Lower-case hexadecimal with at least `width` digits. */
  function Hex(n: nat, width: nat): (s: string)
    ensures '_' !in s
    decreases n, width
  {
    if n == 0 && width == 0 then ""
    else Hex(n / 16, if width == 0 then 0 else width - 1) + [HexDigit(n % 16)]
  }

  function HexValue(s: string): int {
    if s == "" then 0 else 16 * HexValue(s[..|s| - 1]) + HexValueOf(s[|s| - 1])
  }

  lemma {:induction false} HexReadsBack(n: nat, width: nat)
    ensures HexValue(Hex(n, width)) == n
    decreases n, width
  {
    if n != 0 || width != 0 {
      var less := if width == 0 then 0 else width - 1;
      HexReadsBack(n / 16, less);
      assert Hex(n, width)[..|Hex(n, width)| - 1] == Hex(n / 16, less);
    }
  }

  lemma {:induction false} SplitAtUnderscore(a: string, b: string, c: string, d: string)
    requires '_' !in a && '_' !in c && a + "_" + b == c + "_" + d
    ensures a == c && b == d
  {
    var left, right := a + "_" + b, c + "_" + d;
    assert left[|a|] == '_' && right[|c|] == '_';
    assert forall i :: 0 <= i < |a| ==> left[i] == a[i] && a[i] != '_';
    assert forall i :: 0 <= i < |c| ==> right[i] == c[i] && c[i] != '_';
    assert |a| == |c|;
    assert a == left[..|a|] && c == right[..|c|];
    assert b == left[|a| + 1..] && d == right[|c| + 1..];
  }

  function Serials(serial: nat, request: nat): string {
    Hex(serial, 16) + "_" + Hex(request, 16)
  }

  function RequestId(serial: nat, request: nat): string {
    "open_" + Serials(serial, request)
  }

  function Handle(serial: nat, request: nat): string {
    "view_" + Serials(serial, request)
  }

  lemma SerialsInjective(s1: nat, n1: nat, s2: nat, n2: nat)
    requires Serials(s1, n1) == Serials(s2, n2)
    ensures s1 == s2 && n1 == n2
  {
    SplitAtUnderscore(Hex(s1, 16), Hex(n1, 16), Hex(s2, 16), Hex(n2, 16));
    HexReadsBack(s1, 16);
    HexReadsBack(s2, 16);
    HexReadsBack(n1, 16);
    HexReadsBack(n2, 16);
  }

  /** No two requests, in one session or in different ones, share an id or a handle. */
  lemma IdentifiersInjective(s1: nat, n1: nat, s2: nat, n2: nat)
    ensures RequestId(s1, n1) == RequestId(s2, n2) ==> s1 == s2 && n1 == n2
    ensures Handle(s1, n1) == Handle(s2, n2) ==> s1 == s2 && n1 == n2
  {
    assert RequestId(s1, n1)[5..] == Serials(s1, n1) && RequestId(s2, n2)[5..] == Serials(s2, n2);
    assert Handle(s1, n1)[5..] == Serials(s1, n1) && Handle(s2, n2)[5..] == Serials(s2, n2);
    if Serials(s1, n1) == Serials(s2, n2) { SerialsInjective(s1, n1, s2, n2); }
  }

  // ----- the registry as a value -----

  /** Where the bytes behind a renderer were read: which session, which file. */
  datatype Source = Source(serial: nat, fileId: string)

  datatype Pending = Pending(requestId: string, requestSerial: nat, fileId: string, kind: Kind)
  datatype Open = Open(handle: string, fileId: string, sizeBytes: nat, kind: Kind, source: Source)
  datatype Registry = Registry(serial: nat, nextRequest: nat, pending: Option<Pending>, current: Option<Open>)

  function NewRegistry(serial: nat): Registry {
    Registry(serial, 0, None, None)
  }

  function Begin(g: Registry, fileId: string, kind: Kind): (Registry, Result<string>) {
    if g.nextRequest >= MAX_U64 then (g, Err(Internal))
    else
      var n := g.nextRequest + 1;
      (Registry(g.serial, n, Some(Pending(RequestId(g.serial, n), n, fileId, kind)), None), Ok(RequestId(g.serial, n)))
  }

  function PendingFile(g: Registry, requestId: string, kind: Kind): Result<string> {
    if g.pending.Some? && g.pending.value.requestId == requestId && g.pending.value.kind == kind
    then Ok(g.pending.value.fileId) else Err(RendererClosed)
  }

  function Complete(g: Registry, requestId: string, sizeBytes: nat, kind: Kind, source: Source): (Registry, Result<string>) {
    if PendingFile(g, requestId, kind).Err? then (g, Err(RendererClosed))
    else
      var handle := Handle(g.serial, g.pending.value.requestSerial);
      (g.(pending := None, current := Some(Open(handle, g.pending.value.fileId, sizeBytes, kind, source))), Ok(handle))
  }

  function Cancel(g: Registry, requestId: string): Registry {
    if g.pending.Some? && g.pending.value.requestId == requestId then g.(pending := None) else g
  }

  function Get(g: Registry, handle: string, kind: Kind): Result<Open> {
    if g.current.Some? && g.current.value.handle == handle && g.current.value.kind == kind
    then Ok(g.current.value) else Err(RendererClosed)
  }

  function Close(g: Registry, handle: string): (Registry, Result<()>) {
    if g.current.Some? && g.current.value.handle == handle then (g.(current := None), Ok(())) else (g, Err(RendererClosed))
  }

  // ----- the registry as the program keeps it -----

  class RendererRegistry {
    var serial: nat
    var nextRequest: nat
    var pending: Option<Pending>
    var current: Option<Open>

    constructor (sessionSerial: nat)
      ensures Now() == NewRegistry(sessionSerial)
    {
      serial, nextRequest, pending, current := sessionSerial, 0, None, None;
    }

    function Now(): Registry
      reads this
    {
      Registry(serial, nextRequest, pending, current)
    }

    method BeginOpen(fileId: string, kind: Kind) returns (r: Result<string>)
      modifies this
      ensures (Now(), r) == Begin(old(Now()), fileId, kind)
    {
      if nextRequest >= MAX_U64 {
        return Err(Internal);
      }
      nextRequest := nextRequest + 1;
      var requestId := RequestId(serial, nextRequest);
      current := None;
      pending := Some(Pending(requestId, nextRequest, fileId, kind));
      return Ok(requestId);
    }

    method CompleteOpen(requestId: string, sizeBytes: nat, kind: Kind, source: Source) returns (r: Result<string>)
      modifies this
      ensures (Now(), r) == Complete(old(Now()), requestId, sizeBytes, kind, source)
    {
      var fileId :- PendingFile(Now(), requestId, kind);
      var handle := Handle(serial, pending.value.requestSerial);
      pending := None;
      current := Some(Open(handle, fileId, sizeBytes, kind, source));
      return Ok(handle);
    }

    method CancelOpen(requestId: string)
      modifies this
      ensures Now() == Cancel(old(Now()), requestId)
    {
      if pending.Some? && pending.value.requestId == requestId {
        pending := None;
      }
    }

    method CloseHandle(handle: string) returns (r: Result<()>)
      modifies this
      ensures (Now(), r) == Close(old(Now()), handle)
    {
      if current.Some? && current.value.handle == handle {
        current := None;
        return Ok(());
      }
      return Err(RendererClosed);
    }
  }
}
