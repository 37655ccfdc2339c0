/** The clock rollback guard and the offline restore it protects.
    Models RollbackGuard of crates/solarch-core/src/license.rs, rollback.rs and
    restore_local_license of apps/viewer/src-tauri/src. */
module Rollback {
  import opened Outcomes
  import opened Viewer
  import opened Licenses
  import B = Bytes

  const TOLERANCE: int := 300
  const MAX_I64: int := 0x7fff_ffff_ffff_ffff
  const MIN_I64: int := -0x8000_0000_0000_0000

  type I64 = i: int | MIN_I64 <= i <= MAX_I64

  function SaturatingAdd(a: I64, b: nat): (sum: I64) {
    if a + b > MAX_I64 then MAX_I64 else a + b
  }

  datatype ClockSample = ClockSample(utc: I64, monotonicMillis: nat)

  datatype Guard = Guard(highWater: Option<I64>, processSample: Option<ClockSample>)

  function Restored(highWater: I64): Guard {
    Guard(Some(highWater), None)
  }

  /** One observation: refuses a clock that fell back by more than the tolerance, be it
      behind the high water or behind the monotonic clock of this process. */
  function Observe(g: Guard, sample: ClockSample): Result<Guard> {
    var _ :- Need(g.highWater.None? || SaturatingAdd(sample.utc, TOLERANCE) >= g.highWater.value, RefreshRequired);
    var _ :- match g.processSample
      case None => Ok(())
      case Some(previous) =>
        var _ :- Need(sample.monotonicMillis >= previous.monotonicMillis, RefreshRequired);
        var elapsed := (sample.monotonicMillis - previous.monotonicMillis) / 1000;
        var _ :- Need(elapsed <= MAX_I64, RefreshRequired);
        Need(SaturatingAdd(sample.utc, TOLERANCE) >= SaturatingAdd(previous.utc, elapsed), RefreshRequired);
    var high := if g.highWater.None? || g.highWater.value < sample.utc then sample.utc else g.highWater.value;
    Ok(Guard(Some(high), Some(sample)))
  }

  // ----- the durable high water -----

  function EncodeI64(value: I64): (bytes: seq<B.Byte>)
    ensures |bytes| == 8
  {
    B.ToLE(if value < 0 then value + B.U64_LIMIT else value, 8)
  }

  function DecodeI64(bytes: seq<B.Byte>): int
    requires |bytes| == 8
  {
    var unsigned := B.FromLE(bytes);
    if unsigned > MAX_I64 then unsigned - B.U64_LIMIT else unsigned
  }

  lemma DecodeEncoded(value: I64)
    ensures DecodeI64(EncodeI64(value)) == value
  {
    B.FromToU64(if value < 0 then value + B.U64_LIMIT else value);
  }

  /** The high water as a new process reads it. */
  function StoredHighWater(store: Option<seq<B.Byte>>): Result<I64> {
    match store
    case None => Err(RefreshRequired)
    case Some(bytes) =>
      var _ :- Need(|bytes| == 8, CorruptSecureStore);
      B.ToFromLE(bytes);
      B.Pow256Values();
      var high := DecodeI64(bytes);
      var _ :- Need(high >= 0, CorruptSecureStore);
      Ok(high)
  }

  /** The store outlives the process, the guard does not. */
  datatype ClockState = ClockState(store: Option<seq<B.Byte>>, guard: Option<Guard>)

  /** Storage may fail to read at any time, and to write before or after taking effect. */
  datatype Storage = Storage(readable: bool, write: Fault)

  function LoadGuard(s: ClockState, io: Storage): Result<Guard> {
    match s.guard
    case Some(g) => Ok(g)
    case None =>
      var _ :- Need(io.readable, SecureStoreUnavailable);
      var high :- StoredHighWater(s.store);
      Ok(Restored(high))
  }

  /** The state after observing a local sample, and the accepted high water. */
  function ObserveLocal(s: ClockState, sample: ClockSample, io: Storage): (ClockState, Result<I64>) {
    match LoadGuard(s, io)
    case Err(e) => (s, Err(e))
    case Ok(loaded) =>
      match Observe(loaded, sample)
      case Err(e) => (s.(guard := Some(loaded)), Err(e))
      case Ok(g) =>
        var high := g.highWater.value;
        (ClockState(Stored(s.store, high, io), Some(g)),
         if io.write == Works then Ok(high) else Err(SecureStoreUnavailable))
  }

  /** The store after writing a high water. */
  function Stored(store: Option<seq<B.Byte>>, high: I64, io: Storage): Option<seq<B.Byte>> {
    if io.write == FailsClean then store else Some(EncodeI64(high))
  }

  /** An online response starts the clock state over; the guard is replaced only after a
      reported success. */
  function Reset(s: ClockState, sample: ClockSample, io: Storage): (ClockState, Result<I64>) {
    var stored := Stored(s.store, sample.utc, io);
    if io.write == Works then (ClockState(stored, Some(Guard(Some(sample.utc), Some(sample)))), Ok(sample.utc))
    else (s.(store := stored), Err(SecureStoreUnavailable))
  }

  class RollbackManager {
    var store: Option<seq<B.Byte>>
    var guard: Option<Guard>

    constructor (durable: Option<seq<B.Byte>>)
      ensures State() == ClockState(durable, None)
    {
      store, guard := durable, None;
    }

    /** A manager in the midst of a run. */
    constructor At(s: ClockState)
      ensures State() == s
    {
      store, guard := s.store, s.guard;
    }

    function State(): ClockState
      reads this
    {
      ClockState(store, guard)
    }

    method Persist(highWater: I64, io: Storage) returns (r: Result<()>)
      modifies this`store
      ensures r == if io.write == Works then Ok(()) else Err(SecureStoreUnavailable)
      ensures store == Stored(old(store), highWater, io)
    {
      if io.write != FailsClean {
        store := Some(EncodeI64(highWater));
      }
      if io.write != Works {
        return Err(SecureStoreUnavailable);
      }
      return Ok(());
    }

    method ResetAfterOnlineRefresh(sample: ClockSample, io: Storage) returns (r: Result<I64>)
      modifies this
      ensures (State(), r) == Reset(old(State()), sample, io)
    {
      var first := Observe(Guard(None, None), sample).value;
      var _ :- Persist(first.highWater.value, io);
      guard := Some(first);
      return Ok(first.highWater.value);
    }

    /** The in-memory guard advances before the write, so whatever the write does the store
        never gets ahead of the guard. */
    method ObserveLocalSample(sample: ClockSample, io: Storage) returns (r: Result<I64>)
      modifies this
      ensures (State(), r) == ObserveLocal(old(State()), sample, io)
    {
      if guard.None? {
        if !io.readable {
          return Err(SecureStoreUnavailable);
        }
        var high :- StoredHighWater(store);
        guard := Some(Restored(high));
      }
      var observed :- Observe(guard.value, sample);
      guard := Some(observed);
      var _ :- Persist(observed.highWater.value, io);
      return Ok(observed.highWater.value);
    }
  }

  // ----- which clocks are accepted -----

  /** The wall clock is at most 300 seconds behind where the monotonic clock, which must
      not have gone back, puts it; readings at the end of the 64-bit range always pass. */
  predicate KeepsPace(previous: ClockSample, sample: ClockSample) {
    var elapsed := (sample.monotonicMillis - previous.monotonicMillis) / 1000;
    && 0 <= sample.monotonicMillis - previous.monotonicMillis && elapsed <= MAX_I64
    && (sample.utc + 300 >= previous.utc + elapsed || sample.utc + 300 >= MAX_I64)
  }

  /** A sample is accepted exactly when it is at most 300 seconds behind the high water and
      keeps pace with the last sample of this process. It becomes the last sample, and the
      high water becomes the later of the two instants. */
  lemma AcceptsExactly(g: Guard, sample: ClockSample)
    ensures Observe(g, sample).Ok? <==>
      && (g.highWater.Some? ==> sample.utc + 300 >= g.highWater.value)
      && (g.processSample.Some? ==> KeepsPace(g.processSample.value, sample))
    ensures Observe(g, sample).Ok? ==>
      var next := Observe(g, sample).value;
      && next.processSample == Some(sample) && next.highWater.Some?
      && next.highWater.value >= sample.utc && (g.highWater.Some? ==> next.highWater.value >= g.highWater.value)
      && (next.highWater.value == sample.utc || next.highWater == g.highWater)
  {
  }

  /** What a manager accepts: the first sample of a process is held to the stored high
      water, later ones to the guard, and the new high water must be written. */
  lemma AcceptsLocally(s: ClockState, sample: ClockSample, io: Storage)
    ensures ObserveLocal(s, sample, io).1.Ok? <==>
      && io.write == Works
      && match s.guard
         case Some(g) => Observe(g, sample).Ok?
         case None => io.readable && StoredHighWater(s.store).Ok? && sample.utc + 300 >= StoredHighWater(s.store).value
  {
  }

  /** After an online response only its clock reading counts, however far ahead the high
      water was: in this process, and after a restart. */
  lemma ResetStartsOver(s: ClockState, sample: ClockSample, io: Storage, next: ClockSample, io': Storage)
    requires Reset(s, sample, io).1.Ok? && sample.utc >= 0 && io'.write == Works && io'.readable
    ensures var after := Reset(s, sample, io).0;
      && (ObserveLocal(after, next, io').1.Ok? <==> next.utc + 300 >= sample.utc && KeepsPace(sample, next))
      && (ObserveLocal(after.(guard := None), next, io').1.Ok? <==> next.utc + 300 >= sample.utc)
  {
    var after := Reset(s, sample, io).0;
    StoredIsRead(sample.utc);
    AcceptsExactly(after.guard.value, next);
    AcceptsLocally(after, next, io');
    AcceptsLocally(after.(guard := None), next, io');
  }

  // ----- the offline restore -----

  /** One attempt to unlock from the stored licence: what the clock says, whether a
      licence file is there and what it holds, whether the device key loads and the
      session still takes the key. */
  datatype Attempt = Attempt(
    sample: ClockSample,
    io: Storage,
    present: Result<bool>,
    stored: Result<Option<Grant>>,
    context: Context,
    deviceReady: bool,
    installs: bool)

  function InTimestampRange(utc: I64): bool {
    -377_705_116_800 <= utc <= MAX_TIMESTAMP
  }

  function RestoreLocalLicense(s: ClockState, a: Attempt): (ClockState, Result<bool>) {
    if a.present != Ok(true) then (s, a.present)
    else
      var (next, observed) := ObserveLocal(s, a.sample, a.io);
      (next, match observed
             case Err(e) => Err(e)
             case Ok(_) => UnlockOffline(a))
  }

  function UnlockOffline(a: Attempt): Result<bool> {
    var _ :- Need(InTimestampRange(a.sample.utc), RefreshRequired);
    var _ :- Need(a.deviceReady, SecureStoreUnavailable);
    var stored :- a.stored;
    match stored
    case None => Ok(false)
    case Some(grant) =>
      var _ :- ValidateCached(grant, a.context.(now := a.sample.utc));
      if a.installs then Ok(true) else Err(InvalidLicense)
  }

  /** The archive unlocks exactly if a licence is stored, the clock is accepted, the device
      key loads, the session takes the key, and the stored grant is authentic, was issued
      for this archive and this device, and is within its three days. */
  lemma UnlocksExactly(s: ClockState, a: Attempt)
    ensures RestoreLocalLicense(s, a).1 == Ok(true) <==>
      && a.present == Ok(true) && a.stored.Ok? && a.stored.value.Some?
      && ObserveLocal(s, a.sample, a.io).1.Ok? && a.deviceReady && a.installs
      && var (grant, payload) := (a.stored.value.value, a.stored.value.value.payload);
      && grant.authentic && grant.unwrapped.Some?
      && payload.device == a.context.device == a.context.privateDevice
      && payload.archiveId == a.context.archiveId && payload.fingerprint == a.context.fingerprint
      && payload.issuedAt.Some? && payload.offlineValidUntil.Some?
      && payload.issuedAt.value <= a.sample.utc < payload.offlineValidUntil.value == payload.issuedAt.value + 259_200
  {
  }

  method RestoreLocal(rollback: RollbackManager, a: Attempt) returns (r: Result<bool>)
    modifies rollback
    ensures (rollback.State(), r) == RestoreLocalLicense(old(rollback.State()), a)
  {
    var present :- a.present;
    if !present {
      return Ok(false);
    }
    var _ :- rollback.ObserveLocalSample(a.sample, a.io);
    r := UnlockOffline(a);
  }

  // ----- runs -----

  datatype Event = Restart | Restore(attempt: Attempt)

  function After(s: ClockState, e: Event): ClockState {
    match e
    case Restart => s.(guard := None)
    case Restore(a) => RestoreLocalLicense(s, a).0
  }

  function AfterAll(s: ClockState, run: seq<Event>): ClockState
    decreases |run|
  {
    if run == [] then s else AfterAll(After(s, run[0]), run[1..])
  }

  /** Both the durable and the in-memory high water have reached `t`. */
  predicate Reached(s: ClockState, t: int) {
    && StoredHighWater(s.store).Ok? && StoredHighWater(s.store).value >= t
    && (s.guard.Some? ==> s.guard.value.highWater.Some? && s.guard.value.highWater.value >= t)
  }

  lemma StoredIsRead(high: I64)
    requires high >= 0
    ensures StoredHighWater(Some(EncodeI64(high))) == Ok(high)
  {
    DecodeEncoded(high);
  }

  /** An accepted sample raises both. */
  lemma AcceptedIsReached(s: ClockState, sample: ClockSample, io: Storage, t: int)
    requires 0 <= t <= sample.utc && ObserveLocal(s, sample, io).1.Ok?
    ensures Reached(ObserveLocal(s, sample, io).0, t)
  {
    StoredIsRead(ObserveLocal(s, sample, io).1.value);
  }

  lemma StaysReached(s: ClockState, e: Event, t: int)
    requires t >= 0 && Reached(s, t)
    ensures Reached(After(s, e), t)
  {
    if e.Restore? && e.attempt.present == Ok(true) {
      var next := ObserveLocal(s, e.attempt.sample, e.attempt.io).0;
      if next.guard.Some? && next.guard.value.highWater.Some? && next.guard.value.highWater.value >= 0 {
        StoredIsRead(next.guard.value.highWater.value);
      }
    }
  }

  lemma {:induction false} ReachedForGood(s: ClockState, run: seq<Event>, t: int)
    requires t >= 0 && Reached(s, t)
    ensures Reached(AfterAll(s, run), t)
    decreases |run|
  {
    if run != [] {
      StaysReached(s, run[0], t);
      ReachedForGood(After(s, run[0]), run[1..], t);
    }
  }

  /** Once a sample at or past a grant's deadline plus the tolerance has been accepted, no
      later offline restore of that grant succeeds, whatever restarts, failed reads and
      writes that fail before or after taking effect come in between. */
  lemma NoUnlockAfterDeadline(s: ClockState, accepted: ClockSample, io: Storage, run: seq<Event>,
                              later: Attempt, grant: Grant)
    requires grant.payload.offlineValidUntil.Some?
    requires accepted.utc >= grant.payload.offlineValidUntil.value + TOLERANCE
    requires ObserveLocal(s, accepted, io).1.Ok?
    requires later.stored == Ok(Some(grant))
    ensures var state := AfterAll(ObserveLocal(s, accepted, io).0, run);
            RestoreLocalLicense(state, later).1 != Ok(true)
  {
    var t := grant.payload.offlineValidUntil.value + TOLERANCE;
    AcceptedIsReached(s, accepted, io, t);
    ReachedForGood(ObserveLocal(s, accepted, io).0, run, t);
  }

  /** After an accepted sample no clock is accepted again that is more than 300 seconds
      behind it, whatever restarts and failing stores come in between. */
  lemma NeverFallsBack(s: ClockState, accepted: ClockSample, io: Storage, run: seq<Event>, later: ClockSample, io': Storage)
    requires accepted.utc >= 0 && ObserveLocal(s, accepted, io).1.Ok?
    requires ObserveLocal(AfterAll(ObserveLocal(s, accepted, io).0, run), later, io').1.Ok?
    ensures later.utc + 300 >= accepted.utc
  {
    AcceptedIsReached(s, accepted, io, accepted.utc);
    ReachedForGood(ObserveLocal(s, accepted, io).0, run, accepted.utc);
  }

  /** The bound is exact. After a restart with this high water, the stored grant can
      still be unlocked at some clock reading if and only if it is a grant that opens the
      archive at all and the high water is below the deadline plus the tolerance. */
  lemma RestoreWindowIsExact(high: I64, attempt: Attempt, grant: Grant)
    requires high >= 0 && attempt.stored == Ok(Some(grant))
    requires attempt.io == Storage(true, Works) && attempt.present == Ok(true) && attempt.deviceReady && attempt.installs
    ensures var s := ClockState(Some(EncodeI64(high)), None);
      (exists sample :: RestoreLocalLicense(s, attempt.(sample := sample)).1 == Ok(true))
      <==> ValidateForRefresh(grant, attempt.context).Ok? && high < grant.payload.offlineValidUntil.value + TOLERANCE
  {
    var s := ClockState(Some(EncodeI64(high)), None);
    StoredIsRead(high);
    if ValidateForRefresh(grant, attempt.context).Ok? && high < grant.payload.offlineValidUntil.value + TOLERANCE {
      var last := ClockSample(grant.payload.offlineValidUntil.value - 1, 0);
      assert RestoreLocalLicense(s, attempt.(sample := last)).1 == Ok(true);
    }
    if sample :| RestoreLocalLicense(s, attempt.(sample := sample)).1 == Ok(true) {
      RefreshDropsOnlyTheTime(grant, attempt.context);
      assert attempt.(sample := sample).context.(now := sample.utc) == attempt.context.(now := sample.utc);
      assert ValidateCached(grant, attempt.context.(now := sample.utc)).Ok?;
    }
  }
}
