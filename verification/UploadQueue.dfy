/** The upload queue of the archive page: callbacks and the one pump loop, interleaved at
    every await. Models apps/web/src/lib/use-archive-upload.ts. */
module UploadQueues {
  datatype Status = Queued | Uploading | Done | Failed | Canceled
  datatype Item = Item(id: nat, status: Status)

  /** Where the pump waits: nowhere, for the files to be packed, for the transfer, or for
      the page to be refreshed. */
  datatype Point = Idle | Packing(current: nat) | Transferring(current: nat) | Refreshing

  datatype Queue = Queue(items: seq<Item>, files: set<nat>, aborts: map<nat, bool>, point: Point, counter: nat)

  const START := Queue([], {}, map[], Idle, 0)

  datatype Outcome = Succeeds | Aborts | Fails

  // ----- lists -----

  function Patch(items: seq<Item>, id: nat, status: Status): (patched: seq<Item>)
    ensures |patched| == |items|
    ensures forall i :: 0 <= i < |items| ==> patched[i] == if items[i].id == id then Item(id, status) else items[i]
  {
    if items == [] then []
    else [if items[0].id == id then Item(id, status) else items[0]] + Patch(items[1..], id, status)
  }

  function FirstQueued(items: seq<Item>): (at: nat)
    ensures at <= |items|
    ensures at < |items| ==> items[at].status == Queued
    ensures forall i :: 0 <= i < at ==> items[i].status != Queued
  {
    if items == [] || items[0].status == Queued then 0 else 1 + FirstQueued(items[1..])
  }

  function OnlyFailed(items: seq<Item>): (failed: seq<Item>)
    ensures forall i :: 0 <= i < |failed| ==> failed[i] in items && failed[i].status == Failed
  {
    if items == [] then []
    else if items[0].status == Failed then [items[0]] + OnlyFailed(items[1..])
    else OnlyFailed(items[1..])
  }

  function QueuedCount(items: seq<Item>): nat {
    if items == [] then 0 else (if items[0].status == Queued then 1 else 0) + QueuedCount(items[1..])
  }

  lemma {:induction false} PatchCount(items: seq<Item>, id: nat, status: Status)
    requires status != Queued
    ensures QueuedCount(Patch(items, id, status)) <= QueuedCount(items)
    ensures (exists i :: 0 <= i < |items| && items[i] == Item(id, Queued)) ==>
      QueuedCount(Patch(items, id, status)) < QueuedCount(items)
  {
    if items != [] {
      PatchCount(items[1..], id, status);
      var patched := Patch(items, id, status);
      assert patched[1..] == Patch(items[1..], id, status);
      if i :| 0 <= i < |items| && items[i] == Item(id, Queued) {
        if i > 0 { assert items[1..][i - 1] == Item(id, Queued); }
      }
    }
  }

  // ----- the pump -----

  function Advance(q: Queue): Queue
    decreases QueuedCount(q.items)
  {
    var at := FirstQueued(q.items);
    if at == |q.items| then q.(items := OnlyFailed(q.items), point := Idle)
    else
      var id := q.items[at].id;
      if id in q.files then
        q.(aborts := q.aborts[id := false], items := Patch(q.items, id, Uploading), point := Packing(id))
      else
        PatchCount(q.items, id, Canceled);
        Advance(q.(items := Patch(q.items, id, Canceled)))
  }

  function Pump(q: Queue): Queue {
    if q.point != Idle then q else Advance(q)
  }

  function Settled(q: Queue, id: nat, outcome: Outcome): Queue {
    var status := match outcome case Succeeds => Done case Aborts => Canceled case Fails => Failed;
    Queue(Patch(q.items, id, status), if outcome == Fails then q.files else q.files - {id}, q.aborts - {id}, Refreshing, q.counter)
  }

  datatype Event =
    | Add
    | Cancel(id: nat)
    | Retry(id: nat)
    | PackSettles(outcome: Outcome)
    | TransferSettles(outcome: Outcome)
    | RefreshSettles
    | RefreshRejects

  function Take(q: Queue, e: Event): Queue {
    match e
    case Add =>
      var id := q.counter + 1;
      Pump(q.(counter := id, files := q.files + {id}, items := q.items + [Item(id, Queued)]))
    case Cancel(id) =>
      if id in q.aborts then q.(aborts := q.aborts[id := true])
      else q.(files := q.files - {id}, items := Patch(q.items, id, Canceled))
    case Retry(id) =>
      if id !in q.files then q else Pump(q.(items := Patch(q.items, id, Queued)))
    case PackSettles(outcome) =>
      if !q.point.Packing? then q
      else if outcome != Succeeds then Settled(q, q.point.current, outcome)
      else if q.point.current in q.aborts && q.aborts[q.point.current] then Settled(q, q.point.current, Aborts)
      else q.(point := Transferring(q.point.current))
    case TransferSettles(outcome) => if q.point.Transferring? then Settled(q, q.point.current, outcome) else q
    case RefreshSettles => if q.point.Refreshing? then Advance(q) else q
    // the loop is left through its `finally`, without a look at the queue
    case RefreshRejects => if q.point.Refreshing? then q.(point := Idle) else q
  }

  function Run(q: Queue, events: seq<Event>): Queue
    decreases |events|
  {
    if events == [] then q else Run(Take(q, events[0]), events[1..])
  }

  // ----- what every interleaving keeps -----

  predicate Working(q: Queue, id: nat) {
    (q.point.Packing? || q.point.Transferring?) && q.point.current == id
  }

  predicate UniqueIds(items: seq<Item>, counter: nat) {
    && (forall i :: 0 <= i < |items| ==> items[i].id <= counter)
    && (forall i, j :: 0 <= i < j < |items| ==> items[i].id != items[j].id)
  }

  predicate ItemOk(q: Queue, item: Item) {
    (item.status == Uploading ==> Working(q, item.id)) && (item.status == Queued ==> item.id in q.files)
  }

  /** Only the item the pump works on is uploading, and a queued item has its files. */
  ghost predicate Inv(q: Queue) {
    && UniqueIds(q.items, q.counter)
    && (forall id :: id in q.aborts <==> Working(q, id))
    && (forall i :: 0 <= i < |q.items| ==> ItemOk(q, q.items[i]))
  }

  /** Nothing waits and nothing is left over but what failed or was taken back. */
  predicate Settles(q: Queue) {
    q.point == Idle ==> forall i :: 0 <= i < |q.items| ==> q.items[i].status == Failed || q.items[i].status == Canceled
  }

  lemma {:induction false} FailedKeepOrder(items: seq<Item>, counter: nat)
    requires UniqueIds(items, counter)
    ensures UniqueIds(OnlyFailed(items), counter)
  {
    if items != [] {
      assert forall i :: 0 <= i < |items[1..]| ==> items[1..][i] == items[i + 1];
      FailedKeepOrder(items[1..], counter);
      var failed := OnlyFailed(items[1..]);
      forall i | 0 <= i < |failed| ensures failed[i].id != items[0].id {
        assert failed[i] in items[1..];
      }
    }
  }

  /** With its files at hand the first queued item starts: the branch for missing files is
      never taken. */
  lemma AdvanceKeeps(q: Queue)
    requires UniqueIds(q.items, q.counter) && q.aborts == map[]
    requires forall i :: 0 <= i < |q.items| ==>
      q.items[i].status != Uploading && (q.items[i].status == Queued ==> q.items[i].id in q.files)
    ensures Inv(Advance(q)) && Settles(Advance(q))
    ensures var at := FirstQueued(q.items);
      if at == |q.items| then Advance(q).point == Idle else Advance(q).point == Packing(q.items[at].id)
  {
    FailedKeepOrder(q.items, q.counter);
  }

  lemma PumpKeeps(q: Queue)
    requires UniqueIds(q.items, q.counter) && (forall id :: id in q.aborts <==> Working(q, id))
    requires forall i :: 0 <= i < |q.items| ==> ItemOk(q, q.items[i])
    ensures Inv(Pump(q)) && Settles(Pump(q))
    ensures FirstQueued(q.items) < |q.items| ==> Pump(q).point != Idle
  {
    if q.point == Idle {
      assert q.aborts == map[];
      AdvanceKeeps(q);
    }
  }

  lemma SettledKeeps(q: Queue, id: nat, outcome: Outcome)
    requires Inv(q) && Working(q, id)
    ensures Inv(Settled(q, id, outcome))
  {
  }

  lemma AppendUnique(items: seq<Item>, counter: nat, status: Status)
    requires UniqueIds(items, counter)
    ensures UniqueIds(items + [Item(counter + 1, status)], counter + 1)
  {
  }

  lemma AddedItemsOk(q: Queue, added: Queue, id: nat)
    requires Inv(q) && added == q.(counter := id, files := q.files + {id}, items := q.items + [Item(id, Queued)])
    ensures forall i :: 0 <= i < |added.items| ==> ItemOk(added, added.items[i])
  {
    forall i | 0 <= i < |added.items| ensures ItemOk(added, added.items[i]) {
      if i < |q.items| { assert added.items[i] == q.items[i] && ItemOk(q, q.items[i]); }
    }
  }

  /** Adding files always leaves the pump running, be it stranded or not. */
  lemma AddKeeps(q: Queue)
    requires Inv(q)
    ensures Inv(Take(q, Add)) && Take(q, Add).point != Idle
  {
    var id := q.counter + 1;
    var added := q.(counter := id, files := q.files + {id}, items := q.items + [Item(id, Queued)]);
    AppendUnique(q.items, q.counter, Queued);
    AddedItemsOk(q, added, id);
    PumpKeeps(added);
    assert added.items[|q.items|].status == Queued;
    assert Take(q, Add) == Pump(added);
  }

  lemma RetryKeeps(q: Queue, id: nat)
    requires Inv(q)
    ensures Inv(Take(q, Retry(id)))
    ensures id in q.files ==> Settles(Take(q, Retry(id)))
  {
    if id in q.files { PumpKeeps(q.(items := Patch(q.items, id, Queued))); }
  }

  lemma CancelKeeps(q: Queue, id: nat)
    requires Inv(q)
    ensures Inv(Take(q, Cancel(id)))
    ensures Settles(q) ==> Settles(Take(q, Cancel(id)))
  {
  }

  lemma StaysSettled(q: Queue, e: Event)
    requires Inv(q) && Settles(q) && e != RefreshRejects
    ensures Settles(Take(q, e))
  {
    match e
    case Add => AddKeeps(q);
    case Retry(id) => RetryKeeps(q, id);
    case Cancel(id) => CancelKeeps(q, id);
    case RefreshSettles =>
      if q.point.Refreshing? {
        assert q.aborts == map[];
        AdvanceKeeps(q);
      }
    case _ =>
  }

  lemma TakeKeeps(q: Queue, e: Event)
    requires Inv(q)
    ensures Inv(Take(q, e))
  {
    match e
    case Add => AddKeeps(q);
    case Retry(id) => RetryKeeps(q, id);
    case Cancel(id) => CancelKeeps(q, id);
    case PackSettles(outcome) =>
      if q.point.Packing? {
        SettledKeeps(q, q.point.current, outcome);
        SettledKeeps(q, q.point.current, Aborts);
      }
    case TransferSettles(outcome) =>
      if q.point.Transferring? { SettledKeeps(q, q.point.current, outcome); }
    case RefreshSettles =>
      if q.point.Refreshing? {
        assert q.aborts == map[];
        AdvanceKeeps(q);
      }
    case _ =>
  }

  lemma {:induction false} RunKeeps(q: Queue, events: seq<Event>)
    requires Inv(q)
    ensures Inv(Run(q, events))
    ensures Settles(q) && RefreshRejects !in events ==> Settles(Run(q, events))
    decreases |events|
  {
    if events != [] {
      TakeKeeps(q, events[0]);
      if Settles(q) && events[0] != RefreshRejects { StaysSettled(q, events[0]); }
      RunKeeps(Take(q, events[0]), events[1..]);
    }
  }

  /** In every interleaving at most one item is uploading and a queued item has its files. */
  lemma QueueIsSafe(events: seq<Event>)
    ensures var q := Run(START, events);
      && (forall i, j :: 0 <= i < j < |q.items| ==> q.items[i].status != Uploading || q.items[j].status != Uploading)
      && (forall i :: 0 <= i < |q.items| && q.items[i].status == Queued ==> q.items[i].id in q.files)
  {
    RunKeeps(START, events);
  }

  /** As long as no refresh rejects there is no lost wake-up: whatever is queued has a
      running pump, and an idle pump leaves only what failed or was taken back. */
  lemma NoLostWakeUp(events: seq<Event>)
    requires RefreshRejects !in events
    ensures var q := Run(START, events);
      q.point == Idle ==>
        forall i :: 0 <= i < |q.items| ==> q.items[i].status == Failed || q.items[i].status == Canceled
  {
    RunKeeps(START, events);
  }

  // ----- what a rejected refresh would do -----

  predicate IsQueued(q: Queue, id: nat) {
    Item(id, Queued) in q.items
  }

  /** The item is queued and no pump runs. */
  predicate Waits(q: Queue, id: nat) {
    q.point == Idle && IsQueued(q, id)
  }

  /** New files and an accepted retry start the pump. */
  predicate Wakes(q: Queue, e: Event) {
    e == Add || (e.Retry? && e.id in q.files)
  }

  lemma PatchQueued(items: seq<Item>, id: nat, other: nat)
    ensures Item(id, Queued) in Patch(items, other, Canceled) <==> id != other && Item(id, Queued) in items
  {
    var patched := Patch(items, other, Canceled);
    if Item(id, Queued) in patched {
      var i :| 0 <= i < |patched| && patched[i] == Item(id, Queued);
      assert items[i] == Item(id, Queued) && id != other;
    }
    if id != other && Item(id, Queued) in items {
      var i :| 0 <= i < |items| && items[i] == Item(id, Queued);
      assert patched[i] == Item(id, Queued);
    }
  }

  /** One step: an item waits without a pump if a rejection just left it behind, or if it
      did already and was neither cancelled nor woken. */
  lemma WaitsStep(q: Queue, e: Event, id: nat)
    requires Inv(q)
    ensures Waits(Take(q, e), id) <==>
      || (e == RefreshRejects && q.point.Refreshing? && IsQueued(q, id))
      || (Waits(q, id) && !Wakes(q, e) && e != Cancel(id))
  {
    TakeKeeps(q, e);
    match e
    case Add => AddKeeps(q);
    case Retry(other) => RetryKeeps(q, other);
    case Cancel(other) => PatchQueued(q.items, id, other);
    case RefreshSettles =>
      if q.point.Refreshing? {
        assert q.aborts == map[];
        AdvanceKeeps(q);
      }
    case _ =>
  }

  lemma {:induction false} RunSnoc(q: Queue, events: seq<Event>, e: Event)
    ensures Run(q, events + [e]) == Take(Run(q, events), e)
    decreases |events|
  {
    if events == [] {
      assert events + [e] == [e] && Run(Take(q, e), []) == Take(q, e) && [e][1..] == [];
    } else {
      assert (events + [e])[1..] == events[1..] + [e];
      RunSnoc(Take(q, events[0]), events[1..], e);
    }
  }

  /** Event number `k` was a rejection that found `id` queued. */
  predicate Strands(events: seq<Event>, k: nat, id: nat)
    requires k < |events|
  {
    var q := Run(START, events[..k]);
    events[k] == RefreshRejects && q.point.Refreshing? && IsQueued(q, id)
  }

  /** Event number `m` neither cancelled `id` nor woke the pump. */
  predicate Undisturbed(events: seq<Event>, m: nat, id: nat)
    requires m < |events|
  {
    !Wakes(Run(START, events[..m]), events[m]) && events[m] != Cancel(id)
  }

  /** Rejection number `k` left `id` behind, and nothing since took it up or back. */
  ghost predicate LeftBehind(events: seq<Event>, k: nat, id: nat) {
    k < |events| && Strands(events, k, id) && forall m :: k < m < |events| ==> Undisturbed(events, m, id)
  }

  lemma {:induction false} EventSnoc(events: seq<Event>, e: Event, m: nat, id: nat)
    requires m < |events|
    ensures Strands(events + [e], m, id) <==> Strands(events, m, id)
    ensures Undisturbed(events + [e], m, id) <==> Undisturbed(events, m, id)
  {
    assert (events + [e])[..m] == events[..m];
  }

  lemma {:induction false} LastEvent(events: seq<Event>, e: Event, id: nat)
    ensures var q := Run(START, events);
      && (Strands(events + [e], |events|, id) <==> e == RefreshRejects && q.point.Refreshing? && IsQueued(q, id))
      && (Undisturbed(events + [e], |events|, id) <==> !Wakes(q, e) && e != Cancel(id))
  {
    assert (events + [e])[..|events|] == events;
  }

  lemma {:induction false} LeftBehindSnoc(events: seq<Event>, e: Event, k: nat, id: nat)
    ensures k < |events| ==>
      (LeftBehind(events + [e], k, id) <==> LeftBehind(events, k, id) && !Wakes(Run(START, events), e) && e != Cancel(id))
    ensures LeftBehind(events + [e], |events|, id)
      <==> e == RefreshRejects && Run(START, events).point.Refreshing? && IsQueued(Run(START, events), id)
  {
    LastEvent(events, e, id);
    forall m | 0 <= m < |events|
      ensures Strands(events + [e], m, id) <==> Strands(events, m, id)
      ensures Undisturbed(events + [e], m, id) <==> Undisturbed(events, m, id)
    {
      EventSnoc(events, e, m, id);
    }
    if k < |events| { OneMoreUndisturbed(events, e, k, id); }
  }

  lemma {:induction false} OneMoreUndisturbed(events: seq<Event>, e: Event, k: nat, id: nat)
    requires k < |events|
    requires forall m :: 0 <= m < |events| ==> (Undisturbed(events + [e], m, id) <==> Undisturbed(events, m, id))
    ensures (forall m :: k < m < |events + [e]| ==> Undisturbed(events + [e], m, id))
      <==> (forall m :: k < m < |events| ==> Undisturbed(events, m, id)) && Undisturbed(events + [e], |events|, id)
  {
    if forall m :: k < m < |events + [e]| ==> Undisturbed(events + [e], m, id) {
      forall m | k < m < |events| ensures Undisturbed(events, m, id) {
        assert Undisturbed(events + [e], m, id);
      }
    }
  }

  /** Over every run, an item waits without a pump exactly when a rejected refresh found it
      queued and neither a cancellation of it nor a wake-up has come since. */
  lemma {:induction false} WaitsWithoutPump(events: seq<Event>, id: nat)
    ensures Waits(Run(START, events), id) <==> exists k :: LeftBehind(events, k, id)
    decreases |events|
  {
    if events != [] {
      var before, e := events[..|events| - 1], events[|events| - 1];
      assert events == before + [e];
      var q := Run(START, before);
      WaitsWithoutPump(before, id);
      RunKeeps(START, before);
      RunSnoc(START, before, e);
      WaitsStep(q, e, id);
      forall k ensures LeftBehind(events, k, id) <==>
          if k == |before| then LeftBehind(before + [e], |before|, id)
          else LeftBehind(before, k, id) && !Wakes(q, e) && e != Cancel(id)
      {
        LeftBehindSnoc(before, e, k, id);
      }
      LeftBehindSnoc(before, e, |before|, id);
      if Waits(Run(START, events), id) { ExistsLeftBehind(before, e, id); }
    }
  }

  lemma ExistsLeftBehind(before: seq<Event>, e: Event, id: nat)
    requires LeftBehind(before + [e], |before|, id)
      || ((exists k :: LeftBehind(before, k, id)) && !Wakes(Run(START, before), e) && e != Cancel(id))
    ensures exists k :: LeftBehind(before + [e], k, id)
  {
    if !LeftBehind(before + [e], |before|, id) {
      var k :| LeftBehind(before, k, id);
      LeftBehindSnoc(before, e, k, id);
    }
  }

  /** A second choice of files while the first is under way would be left behind. */
  lemma LostWakeUp()
    ensures Waits(Run(START, [Add, Add, PackSettles(Succeeds), TransferSettles(Succeeds), RefreshRejects]), 2)
  {
    var two := SecondChoice();
    var four := Take(Take(two, PackSettles(Succeeds)), TransferSettles(Succeeds));
    assert four.items[1] == Item(2, Queued) && four.point == Refreshing;
    var rest := [PackSettles(Succeeds), TransferSettles(Succeeds), RefreshRejects];
    assert rest[1..][1..] == [RefreshRejects] && [RefreshRejects][1..] == [];
    assert Run(two, rest) == Run(four, [RefreshRejects]) == Take(four, RefreshRejects);
    var events := [Add, Add] + rest;
    assert events == [Add, Add, PackSettles(Succeeds), TransferSettles(Succeeds), RefreshRejects];
    assert events[1..] == [Add] + rest && events[1..][1..] == rest;
    assert Run(START, events) == Run(Take(START, Add), [Add] + rest) == Run(two, rest);
  }

  lemma SecondChoice() returns (q: Queue)
    ensures q == Take(Take(START, Add), Add)
    ensures q.items == [Item(1, Uploading), Item(2, Queued)] && q.point == Packing(1)
  {
    var start := START.(counter := 1, files := {1}, items := [Item(1, Queued)]);
    assert START.files + {1} == {1} && START.items + [Item(1, Queued)] == [Item(1, Queued)];
    var one := Take(START, Add);
    assert one == Advance(start) && FirstQueued(start.items) == 0;
    assert one.items == [Item(1, Uploading)] && one.point == Packing(1);
    q := Take(one, Add);
  }

  /** However the pump stopped, new files start it again. */
  lemma AddRevives(events: seq<Event>)
    ensures Run(START, events + [Add]).point != Idle
  {
    RunKeeps(START, events);
    RunSnoc(START, events, Add);
    AddKeeps(Run(START, events));
  }

  // ----- the hook as the program keeps it -----

  class UploadQueue {
    var items: seq<Item>
    var files: set<nat>
    var aborts: map<nat, bool>
    var point: Point
    var counter: nat

    constructor ()
      ensures Now() == START
    {
      items, files, aborts, point, counter := [], {}, map[], Idle, 0;
    }

    function Now(): Queue
      reads this
    {
      Queue(items, files, aborts, point, counter)
    }

    /** The loop of the pump up to its next await. */
    method PumpOn()
      modifies this
      ensures Now() == Advance(old(Now()))
    {
      while FirstQueued(items) < |items|
        invariant Advance(Now()) == Advance(old(Now()))
        decreases QueuedCount(items)
      {
        var id := items[FirstQueued(items)].id;
        if id in files {
          aborts := aborts[id := false];
          items := Patch(items, id, Uploading);
          point := Packing(id);
          return;
        }
        PatchCount(items, id, Canceled);
        items := Patch(items, id, Canceled);
      }
      items := OnlyFailed(items);
      point := Idle;
    }

    method StartPump()
      modifies this
      ensures Now() == Pump(old(Now()))
    {
      if point == Idle {
        PumpOn();
      }
    }

    method AddFiles()
      modifies this
      ensures Now() == Take(old(Now()), Add)
    {
      counter := counter + 1;
      files := files + {counter};
      items := items + [Item(counter, Queued)];
      StartPump();
    }

    method CancelItem(id: nat)
      modifies this
      ensures Now() == Take(old(Now()), Cancel(id))
    {
      if id in aborts {
        aborts := aborts[id := true];
        return;
      }
      files := files - {id};
      items := Patch(items, id, Canceled);
    }

    method RetryItem(id: nat)
      modifies this
      ensures Now() == Take(old(Now()), Retry(id))
    {
      if id !in files {
        return;
      }
      items := Patch(items, id, Queued);
      StartPump();
    }

    method Finish(id: nat, outcome: Outcome)
      modifies this
      ensures Now() == Settled(old(Now()), id, outcome)
    {
      match outcome {
        case Succeeds =>
          items := Patch(items, id, Done);
          files := files - {id};
        case Aborts =>
          items := Patch(items, id, Canceled);
          files := files - {id};
        case Fails =>
          items := Patch(items, id, Failed);
      }
      aborts := aborts - {id};
      point := Refreshing;
    }

    method AfterPack(outcome: Outcome)
      requires point.Packing?
      modifies this
      ensures Now() == Take(old(Now()), PackSettles(outcome))
    {
      if outcome != Succeeds {
        Finish(point.current, outcome);
      } else if point.current in aborts && aborts[point.current] {
        Finish(point.current, Aborts);
      } else {
        point := Transferring(point.current);
      }
    }

    method AfterTransfer(outcome: Outcome)
      requires point.Transferring?
      modifies this
      ensures Now() == Take(old(Now()), TransferSettles(outcome))
    {
      Finish(point.current, outcome);
    }

    method AfterRefresh(rejected: bool)
      requires point.Refreshing?
      modifies this
      ensures Now() == Take(old(Now()), if rejected then RefreshRejects else RefreshSettles)
    {
      if rejected {
        point := Idle;
        return;
      }
      PumpOn();
    }

    /** Callbacks and settled awaits in the order they come. */
    method Serve(events: seq<Event>)
      modifies this
      ensures Now() == Run(old(Now()), events)
    {
      var k := 0;
      assert events[0..] == events;
      while k < |events|
        invariant 0 <= k <= |events|
        invariant Run(Now(), events[k..]) == Run(old(Now()), events)
      {
        assert events[k..][1..] == events[k + 1..];
        Handle(events[k]);
        k := k + 1;
      }
    }

    method Handle(e: Event)
      modifies this
      ensures Now() == Take(old(Now()), e)
    {
      match e {
        case Add => AddFiles();
        case Cancel(id) => CancelItem(id);
        case Retry(id) => RetryItem(id);
        case PackSettles(outcome) => if point.Packing? { AfterPack(outcome); }
        case TransferSettles(outcome) => if point.Transferring? { AfterTransfer(outcome); }
        case RefreshSettles => if point.Refreshing? { AfterRefresh(false); }
        case RefreshRejects => if point.Refreshing? { AfterRefresh(true); }
      }
    }
  }
}
