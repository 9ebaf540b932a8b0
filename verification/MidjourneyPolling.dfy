/**
  Several processes poll one Midjourney task.  Each works on a snapshot of the
  row and writes it back guarded by the status it saw; the process that wins and
  finds the task failed refunds it.
*/
module MidjourneyPolling {

  const FAILURE := "FAILURE"
  const FINISHED := "100%"
  const TIMED_OUT := "timeout"

  /** The columns that matter; `details` stands for the remaining ones. */
  datatype Row = Row(code: int, progress: string, status: string, failReason: string, details: int, quota: int)

  /** What the upstream says about the task. */
  datatype Item = Item(progress: string, status: string, failReason: string, details: int)

  /** A snapshot, and whether its round has already handled the task. */
  datatype Poller = Poller(task: Row, used: bool)

  datatype State = State(row: Row, refunds: nat, bulkFailed: bool, pollers: map<nat, Poller>)

  datatype Event =
    | Fetch(p: nat)
    | Process(p: nat, item: Item, late: bool, writeFails: bool)
    | BulkFail

  /** More than an hour after submission an unfinished task counts as failed. */
  function Judged(task: Row, item: Item, late: bool): Item {
    if late && task.progress != FINISHED then item.(failReason := TIMED_OUT, status := FAILURE) else item
  }

  /** checkMjTaskNeedUpdate */
  predicate NeedsUpdate(task: Row, item: Item) {
    || task.code != 1 || task.progress != item.progress || task.status != item.status || task.failReason != item.failReason
    || task.details != item.details || (task.progress != FINISHED && item.failReason != "")
  }

  /** The task is to be refunded. */
  predicate Trigger(item: Item) {
    (item.progress != FINISHED && item.failReason != "") || (item.progress == FINISHED && item.status == FAILURE)
  }

  function Updated(task: Row, item: Item): Row {
    Row(1, if Trigger(item) then FINISHED else item.progress, item.status, item.failReason, item.details, task.quota)
  }

  /** One response item: rewrite the snapshot, write it if the status is still the one seen, refund if it failed. */
  function Handle(s: State, p: nat, item: Item, writeFails: bool): State
    requires p in s.pollers
  {
    var task := s.pollers[p].task;
    if !NeedsUpdate(task, item) then s.(pollers := s.pollers[p := Poller(task, true)])
    else
      var updated := Updated(task, item);
      var pollers := s.pollers[p := Poller(updated, true)];
      if writeFails || s.row.status != task.status then s.(pollers := pollers)
      else
        var refund := Trigger(item) && task.quota != 0;
        State(updated, if refund then s.refunds + 1 else s.refunds, s.bulkFailed, pollers)
  }

  function Apply(s: State, e: Event): State {
    match e
    case Fetch(p) => s.(pollers := s.pollers[p := Poller(s.row, false)])
    case Process(p, item, late, writeFails) =>
      if p in s.pollers then Handle(s, p, Judged(s.pollers[p].task, item, late), writeFails) else s
    case BulkFail => s.(row := s.row.(status := FAILURE, progress := FINISHED), bulkFailed := true)
  }

  /** Only unfinished tasks are fetched; with `once`, a round handles a task once; items come from `items`. */
  ghost predicate Allowed(s: State, e: Event, items: iset<Item>, once: bool) {
    match e
    case Fetch(_) => s.row.progress != FINISHED
    case Process(p, item, _, _) => p in s.pollers && (once ==> !s.pollers[p].used) && item in items
    case BulkFail => true
  }

  function After(s: State, events: seq<Event>): State {
    if events == [] then s else Apply(After(s, events[..|events| - 1]), events[|events| - 1])
  }

  ghost predicate IsRun(s: State, events: seq<Event>, items: iset<Item>, once: bool) {
    events == []
    || (IsRun(s, events[..|events| - 1], items, once)
        && Allowed(After(s, events[..|events| - 1]), events[|events| - 1], items, once))
  }

  /** A submitted task that nobody has looked at. */
  predicate Initial(s: State) {
    s.row.status != FAILURE && s.refunds == 0 && !s.bulkFailed && s.pollers == map[]
  }

  // ---- One response item

  /** The item, as it is judged, says something that the snapshot does not. */
  predicate SaysMore(task: Row, item: Item) {
    || task.code != 1 || (item.progress, item.status, item.failReason, item.details) != (task.progress, task.status, task.failReason, task.details)
    || (task.progress != "100%" && item.failReason != "")
  }

  /** Failed by its reason while unfinished, or finished with the status of a failure. */
  predicate SaysFailed(item: Item) {
    if item.progress == "100%" then item.status == "FAILURE" else item.failReason != ""
  }

  /**
    What one item does: a late one for an unfinished task is a failure.  The row is
    written, and the round has handled the task, if the item says more than the
    snapshot, the row still has the status seen and the write succeeds; and the
    task is refunded if besides it was paid and the item says that it failed.
   */
  lemma ProcessedExactly(s: State, p: nat, item: Item, late: bool, writeFails: bool)
    requires p in s.pollers
    ensures var task := s.pollers[p].task;
            var judged := if late && task.progress != "100%" then item.(status := "FAILURE", failReason := TIMED_OUT) else item;
            var t := Apply(s, Process(p, item, late, writeFails));
            var wins := SaysMore(task, judged) && s.row.status == task.status && !writeFails;
            && t.row == (if wins then Row(1, if SaysFailed(judged) then "100%" else judged.progress, judged.status, judged.failReason,
                                          judged.details, task.quota)
                         else s.row)
            && t.refunds == (if wins && task.quota != 0 && SaysFailed(judged) then s.refunds + 1 else s.refunds)
            && t.bulkFailed == s.bulkFailed && t.pollers.Keys == s.pollers.Keys && t.pollers[p].used
            && forall q | q in s.pollers && q != p :: t.pollers[q] == s.pollers[q]
  {
  }

  // ---- Safety

  /** The upstream reports a failure exactly by the status. */
  predicate Coherent(item: Item) {
    Trigger(item) <==> item.status == FAILURE
  }

  /**
    A failed row is finished, no process that may still write saw it failed, and
    it has been refunded once, unless nothing was paid or it was failed in bulk.
   */
  predicate Invariant(s: State) {
    && (s.row.status == FAILURE ==> s.row.progress == FINISHED)
    && (forall p | p in s.pollers && !s.pollers[p].used :: s.pollers[p].task.status != FAILURE)
    && (forall p | p in s.pollers :: s.pollers[p].task.quota == s.row.quota)
    && s.refunds <= 1
    && (s.refunds == 1 ==> s.row.status == FAILURE)
    && (s.row.status == FAILURE && s.row.quota != 0 && !s.bulkFailed ==> s.refunds == 1)
  }

  lemma JudgedIsCoherent(task: Row, item: Item, late: bool)
    requires Coherent(item)
    ensures Coherent(Judged(task, item, late))
  {
  }

  lemma StepKeepsInvariant(s: State, e: Event, items: iset<Item>)
    requires Invariant(s) && Allowed(s, e, items, true) && forall i | i in items :: Coherent(i)
    ensures Invariant(Apply(s, e))
    ensures s.row.status == FAILURE ==> Apply(s, e).row.status == FAILURE && Apply(s, e).refunds == s.refunds
  {
    if e.Process? {
      JudgedIsCoherent(s.pollers[e.p].task, e.item, e.late);
    }
  }

  lemma {:induction false} RunKeepsInvariant(s: State, events: seq<Event>, items: iset<Item>)
    requires Invariant(s) && IsRun(s, events, items, true) && forall i | i in items :: Coherent(i)
    ensures Invariant(After(s, events))
    ensures s.row.status == FAILURE ==> After(s, events).row.status == FAILURE && After(s, events).refunds == s.refunds
  {
    if events != [] {
      RunKeepsInvariant(s, events[..|events| - 1], items);
      StepKeepsInvariant(After(s, events[..|events| - 1]), events[|events| - 1], items);
    }
  }

  /** No run refunds twice. */
  ghost predicate Safe(items: iset<Item>, once: bool) {
    forall s, events: seq<Event> | Initial(s) && IsRun(s, events, items, once) :: After(s, events).refunds <= 1
  }

  lemma Extend(s: State, events: seq<Event>, e: Event, items: iset<Item>, once: bool) returns (events': seq<Event>)
    requires IsRun(s, events, items, once) && Allowed(After(s, events), e, items, once)
    ensures IsRun(s, events', items, once) && After(s, events') == Apply(After(s, events), e)
  {
    events' := events + [e];
    assert events'[..|events|] == events;
  }

  /** A task with this status that nobody has looked at. */
  function Submitted(status: string): State {
    State(Row(0, "0%", status, "", 0, 1), 0, false, map[])
  }

  /** Two processes see the status that the failing item carries, and both refund. */
  lemma TriggerWithoutFailure(item: Item, items: iset<Item>) returns (s: State, events: seq<Event>)
    requires item in items && Trigger(item) && item.status != FAILURE
    ensures Initial(s) && IsRun(s, events, items, true) && After(s, events).refunds == 2
  {
    s := Submitted(item.status);
    events := Extend(s, [], Fetch(0), items, true);
    events := Extend(s, events, Fetch(1), items, true);
    events := Extend(s, events, Process(0, item, false, false), items, true);
    events := Extend(s, events, Process(1, item, false, false), items, true);
  }

  /** A failure that is not refunded is seen by two processes; both refund it when it times out. */
  lemma FailureWithoutTrigger(item: Item, items: iset<Item>) returns (s: State, events: seq<Event>)
    requires item in items && !Trigger(item) && item.status == FAILURE
    ensures Initial(s) && IsRun(s, events, items, true) && After(s, events).refunds == 2
  {
    s := Submitted("SUBMITTED");
    events := Extend(s, [], Fetch(0), items, true);
    events := Extend(s, events, Process(0, item, false, false), items, true);
    events := Extend(s, events, Fetch(1), items, true);
    events := Extend(s, events, Fetch(2), items, true);
    events := Extend(s, events, Process(1, item, true, false), items, true);
    events := Extend(s, events, Process(2, item, true, false), items, true);
  }

  /** At most one refund, whatever the processes do, exactly when every item reports failure by its status. */
  lemma SafeExactly(items: iset<Item>)
    ensures Safe(items, true) <==> forall i | i in items :: Coherent(i)
  {
    if forall i | i in items :: Coherent(i) {
      forall s, events: seq<Event> | Initial(s) && IsRun(s, events, items, true) ensures After(s, events).refunds <= 1 {
        RunKeepsInvariant(s, events, items);
      }
    } else {
      var item :| item in items && !Coherent(item);
      if Trigger(item) {
        var s, events := TriggerWithoutFailure(item, items);
      } else {
        var s, events := FailureWithoutTrigger(item, items);
      }
    }
  }

  /** A failed paid task is refunded exactly once, unless it was failed in bulk. */
  lemma FailedMeansRefunded(s: State, events: seq<Event>, items: iset<Item>)
    requires Initial(s) && IsRun(s, events, items, true) && forall i | i in items :: Coherent(i)
    ensures var t := After(s, events);
            t.row.quota != 0 && !t.bulkFailed ==> (t.row.status == FAILURE <==> t.refunds == 1)
  {
    RunKeepsInvariant(s, events, items);
  }

  /** A task failed in bulk keeps its charge for good. */
  lemma BulkFailureIsNotRefunded(s: State, events: seq<Event>, items: iset<Item>)
    requires Invariant(s) && s.refunds == 0 && IsRun(Apply(s, BulkFail), events, items, true)
    requires forall i | i in items :: Coherent(i)
    ensures After(Apply(s, BulkFail), events).refunds == 0
  {
    RunKeepsInvariant(Apply(s, BulkFail), events, items);
  }

  // ---- Responses that list a task more than once

  /** The one kind of item that leaves nothing to update when it comes again. */
  predicate Final(item: Item) {
    item.progress == FINISHED && item.status == FAILURE && item.failReason == TIMED_OUT
  }

  /** An unfinished item, once past the hour and once more, refunds twice or brings the task back to be refunded again. */
  lemma DuplicateItemRefundsTwice(item: Item, items: iset<Item>) returns (s: State, events: seq<Event>)
    requires item in items && item.progress != FINISHED
    ensures Initial(s) && IsRun(s, events, items, false) && After(s, events).refunds == 2
  {
    s := Submitted("SUBMITTED");
    events := Extend(s, [], Fetch(0), items, false);
    events := Extend(s, events, Process(0, item, true, false), items, false);
    events := Extend(s, events, Process(0, item, false, false), items, false);
    if !Trigger(item) {
      events := Extend(s, events, Fetch(1), items, false);
      events := Extend(s, events, Process(1, item, true, false), items, false);
    }
  }

  /** A finished item with another status takes the refunded task back to that status, which another process has seen. */
  lemma FinishedItemTwice(item: Item, items: iset<Item>) returns (s: State, events: seq<Event>)
    requires item in items && item.progress == FINISHED && item.status != FAILURE
    ensures Initial(s) && IsRun(s, events, items, false) && After(s, events).refunds == 2
  {
    s := Submitted(item.status);
    events := Extend(s, [], Fetch(0), items, false);
    events := Extend(s, events, Fetch(1), items, false);
    events := Extend(s, events, Process(0, item, true, false), items, false);
    events := Extend(s, events, Process(0, item, false, false), items, false);
    events := Extend(s, events, Process(1, item, true, false), items, false);
  }

  /** A finished failure, past the hour and once more with its own reason, refunds twice. */
  lemma FailedItemTwice(item: Item, items: iset<Item>) returns (s: State, events: seq<Event>)
    requires item in items && item.progress == FINISHED && item.status == FAILURE && item.failReason != TIMED_OUT
    ensures Initial(s) && IsRun(s, events, items, false) && After(s, events).refunds == 2
  {
    s := Submitted("SUBMITTED");
    events := Extend(s, [], Fetch(0), items, false);
    events := Extend(s, events, Process(0, item, true, false), items, false);
    events := Extend(s, events, Process(0, item, false, false), items, false);
  }

  /** Two final items that differ refund twice. */
  lemma TwoFinalItems(item: Item, other: Item, items: iset<Item>) returns (s: State, events: seq<Event>)
    requires item in items && other in items && Final(item) && Final(other) && item != other
    ensures Initial(s) && IsRun(s, events, items, false) && After(s, events).refunds == 2
  {
    s := Submitted("SUBMITTED");
    events := Extend(s, [], Fetch(0), items, false);
    events := Extend(s, events, Process(0, item, false, false), items, false);
    events := Extend(s, events, Process(0, other, false, false), items, false);
  }

  /** With one final item: every snapshot is of a task not failed, or has nothing left to update. */
  predicate FinalInvariant(s: State, final: Item) {
    && (s.row.status == FAILURE ==> s.row.progress == FINISHED)
    && (forall p | p in s.pollers :: s.pollers[p].task.status != FAILURE || !NeedsUpdate(s.pollers[p].task, final))
    && s.refunds <= 1
    && (s.refunds == 1 ==> s.row.status == FAILURE)
  }

  lemma {:induction false} FinalItemRefundsOnce(s: State, events: seq<Event>, items: iset<Item>, final: Item)
    requires FinalInvariant(s, final) && IsRun(s, events, items, false)
    requires Final(final) && forall i | i in items :: i == final
    ensures FinalInvariant(After(s, events), final)
  {
    if events != [] {
      var before, e := After(s, events[..|events| - 1]), events[|events| - 1];
      FinalItemRefundsOnce(s, events[..|events| - 1], items, final);
      assert e.Process? ==> Judged(before.pollers[e.p].task, e.item, e.late) == final;
    }
  }

  /**
    Without the once-per-round rule almost nothing is safe: no run refunds twice if
    and only if there is at most one item the upstream can send, and it is final.
   */
  lemma SafeWithoutTheRule(items: iset<Item>)
    ensures Safe(items, false) <==> forall i, j | i in items && j in items :: Final(i) && i == j
  {
    if forall i, j | i in items && j in items :: Final(i) && i == j {
      forall s, events: seq<Event> | Initial(s) && IsRun(s, events, items, false) ensures After(s, events).refunds <= 1 {
        var final := if item :| item in items then item else Item(FINISHED, FAILURE, TIMED_OUT, 0);
        FinalItemRefundsOnce(s, events, items, final);
      }
    } else {
      var i, j :| i in items && j in items && !(Final(i) && i == j);
      var s, events := TwiceFrom(i, j, items);
    }
  }

  lemma TwiceFrom(i: Item, j: Item, items: iset<Item>) returns (s: State, events: seq<Event>)
    requires i in items && j in items && !(Final(i) && i == j)
    ensures Initial(s) && IsRun(s, events, items, false) && After(s, events).refunds == 2
  {
    var item := if Final(i) then j else i;
    if item.progress != FINISHED {
      s, events := DuplicateItemRefundsTwice(item, items);
    } else if item.status != FAILURE {
      s, events := FinishedItemTwice(item, items);
    } else if item.failReason != TIMED_OUT {
      s, events := FailedItemTwice(item, items);
    } else {
      s, events := TwoFinalItems(i, j, items);
    }
  }
}
