/** What the outcome of an upload leaves in the queue, and what a status in the queue says.
    Models apps/web/src/lib/use-archive-upload.ts. */
module UploadOutcomes {
  import opened UploadQueues

  /** A transfer that succeeds leaves its item done, one that was aborted leaves it canceled,
      and one that failed leaves it failed with its files kept for a retry. Other items
      and their files stay. */
  lemma OutcomeLeaves(q: Queue, outcome: Outcome, i: nat)
    requires Inv(q) && q.point.Transferring? && i < |q.items|
    ensures var (after, id) := (Take(q, TransferSettles(outcome)), q.items[i].id);
      && |after.items| == |q.items| && after.point == Refreshing
      && if id == q.point.current then
           && (outcome == Succeeds ==> after.items[i] == Item(id, Done) && id !in after.files)
           && (outcome == Aborts ==> after.items[i] == Item(id, Canceled) && id !in after.files)
           && (outcome == Fails ==> after.items[i] == Item(id, Failed) && (id in after.files <==> id in q.files))
         else after.items[i] == q.items[i] && (id in after.files <==> id in q.files)
  {
  }

  // ----- files and statuses -----

  /** The files of an item are there exactly until it is done or canceled. */
  predicate FilesFollow(q: Queue) {
    && ((q.point.Packing? || q.point.Transferring?) ==> q.point.current in q.files)
    && forall i :: 0 <= i < |q.items| ==>
         (q.items[i].id in q.files <==> q.items[i].status != Done && q.items[i].status != Canceled)
  }

  lemma AdvanceFollows(q: Queue)
    requires FilesFollow(q)
    ensures FilesFollow(Advance(q))
  {
    var at, failed := FirstQueued(q.items), OnlyFailed(q.items);
    if at == |q.items| {
      forall i | 0 <= i < |failed| ensures failed[i].id in q.files {
        assert failed[i] in q.items;
      }
    }
  }

  lemma AddFollows(q: Queue)
    requires Inv(q) && FilesFollow(q)
    ensures FilesFollow(Take(q, Add))
  {
    var id := q.counter + 1;
    var added := q.(counter := id, files := q.files + {id}, items := q.items + [Item(id, Queued)]);
    forall i | 0 <= i < |added.items|
      ensures added.items[i].id in added.files <==> added.items[i].status != Done && added.items[i].status != Canceled
    {
      if i < |q.items| { assert added.items[i] == q.items[i] && q.items[i].id != id; }
    }
    AdvanceFollows(added);
  }

  lemma RetryFollows(q: Queue, id: nat)
    requires FilesFollow(q)
    ensures FilesFollow(Take(q, Retry(id)))
  {
    if id in q.files { AdvanceFollows(q.(items := Patch(q.items, id, Queued))); }
  }

  lemma TakeFollows(q: Queue, e: Event)
    requires Inv(q) && FilesFollow(q)
    ensures FilesFollow(Take(q, e))
  {
    match e
    case Add => AddFollows(q);
    case Retry(id) => RetryFollows(q, id);
    case RefreshSettles => AdvanceFollows(q);
    case _ =>
  }

  lemma {:induction false} RunFollows(q: Queue, events: seq<Event>)
    requires Inv(q) && FilesFollow(q)
    ensures FilesFollow(Run(q, events))
    decreases |events|
  {
    if events != [] {
      TakeKeeps(q, events[0]);
      TakeFollows(q, events[0]);
      RunFollows(Take(q, events[0]), events[1..]);
    }
  }

  /** In every interleaving: the files of an item are at hand exactly until it is done or
      canceled, so that whatever failed can be retried. */
  lemma FilesFollowStatus(events: seq<Event>)
    ensures var q := Run(START, events);
      forall i :: 0 <= i < |q.items| ==>
        (q.items[i].id in q.files <==> q.items[i].status != Done && q.items[i].status != Canceled)
  {
    RunFollows(START, events);
  }

  // ----- who is done -----

  predicate IsDone(items: seq<Item>, id: nat) {
    exists i :: 0 <= i < |items| && items[i] == Item(id, Done)
  }

  lemma PatchDone(items: seq<Item>, id: nat, status: Status, other: nat)
    requires IsDone(Patch(items, id, status), other)
    ensures IsDone(items, other) || (other == id && status == Done)
  {
    var i :| 0 <= i < |items| && Patch(items, id, status)[i] == Item(other, Done);
    if items[i].id != id { assert items[i] == Item(other, Done); }
  }

  lemma {:induction false} AdvanceDoesNothing(q: Queue, id: nat)
    requires IsDone(Advance(q).items, id)
    ensures IsDone(q.items, id)
    decreases QueuedCount(q.items)
  {
    var at := FirstQueued(q.items);
    if at < |q.items| {
      var first := q.items[at].id;
      if first in q.files {
        PatchDone(q.items, first, Uploading, id);
      } else {
        PatchCount(q.items, first, Canceled);
        AdvanceDoesNothing(q.(items := Patch(q.items, first, Canceled)), id);
        PatchDone(q.items, first, Canceled, id);
      }
    }
  }

  /** Only a transfer that succeeded makes an item done. */
  lemma OnlyTransfersDo(q: Queue, e: Event, id: nat)
    requires IsDone(Take(q, e).items, id)
    ensures IsDone(q.items, id) || (e == TransferSettles(Succeeds) && q.point == Transferring(id))
  {
    match e
    case Add =>
      var added := q.(counter := q.counter + 1, files := q.files + {q.counter + 1}, items := q.items + [Item(q.counter + 1, Queued)]);
      if q.point == Idle { AdvanceDoesNothing(added, id); }
      var i :| 0 <= i < |added.items| && added.items[i] == Item(id, Done);
      assert q.items[i] == Item(id, Done);
    case Cancel(other) =>
      if other !in q.aborts { PatchDone(q.items, other, Canceled, id); }
    case Retry(other) =>
      if other in q.files {
        if q.point == Idle { AdvanceDoesNothing(q.(items := Patch(q.items, other, Queued)), id); }
        PatchDone(q.items, other, Queued, id);
      }
    case PackSettles(outcome) =>
      if q.point.Packing? && Take(q, e).items != q.items {
        PatchDone(q.items, q.point.current, if outcome == Fails then Failed else Canceled, id);
      }
    case TransferSettles(outcome) =>
      if q.point.Transferring? {
        PatchDone(q.items, q.point.current, match outcome case Succeeds => Done case Aborts => Canceled case Fails => Failed, id);
      }
    case RefreshSettles =>
      if q.point.Refreshing? { AdvanceDoesNothing(q, id); }
    case RefreshRejects =>
  }

  /** Event number `k` was the end of a transfer of this item that succeeded. */
  predicate TransferredAt(events: seq<Event>, k: nat, id: nat) {
    k < |events| && events[k] == TransferSettles(Succeeds) && Run(START, events[..k]).point == Transferring(id)
  }

  lemma {:induction false} TransferredBefore(events: seq<Event>, e: Event, k: nat, id: nat)
    requires TransferredAt(events, k, id)
    ensures TransferredAt(events + [e], k, id)
  {
    assert (events + [e])[..k] == events[..k];
  }

  /** In every interleaving: an item is shown as done only if a transfer of it succeeded. */
  lemma {:induction false} DoneWasTransferred(events: seq<Event>, id: nat)
    requires IsDone(Run(START, events).items, id)
    ensures exists k :: TransferredAt(events, k, id)
    decreases |events|
  {
    if events != [] {
      var before, e := events[..|events| - 1], events[|events| - 1];
      assert events == before + [e];
      RunSnoc(START, before, e);
      OnlyTransfersDo(Run(START, before), e, id);
      if IsDone(Run(START, before).items, id) {
        DoneWasTransferred(before, id);
        var k :| TransferredAt(before, k, id);
        TransferredBefore(before, e, k, id);
      } else {
        assert events[..|before|] == before;
        assert TransferredAt(events, |before|, id);
      }
    }
  }
}
