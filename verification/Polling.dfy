/**
 The polling loop with its queue and workers (bot.go): Run, worker and StopWorkers as interleaved atomic steps. The
 server, the handlers and the moment of cancellation are left open; updates are their IDs. StopWorkers is called by
 Run only.
 */
module Polling {

  /** Where Run is: not called, in the startup hooks, back with a hook's error, asking for the update to skip to, at the
      top of its loop, inside getUpdates, sleeping after an error, sending a batch to the queue, about to stop the
      workers, waiting for them, or back. */
  datatype Loop =
    | NotStarted
    | StartupHooks
    | Aborted
    | Skipping
    | Top
    | Calling
    | Sleeping
    | Queueing(rest: seq<int>)
    | Stopping
    | Draining
    | Returned

  datatype Worker = Idle | Dispatching(id: int) | Exited

  /**
   dropPending is the option to drop what is pending, and dropped what the server returned for it. first is the offset
   that the loop started with. fetched holds every ID that the server returned to the loop; queued, dispatched list the
   IDs sent to the queue and handled, in order.
   */
  datatype State = State(
    dropPending: bool,
    ran: bool,
    loop: Loop,
    canceled: bool,
    offset: int,
    queue: seq<int>,
    closed: bool,
    sentOnClosed: bool,
    workers: map<nat, Worker>,
    dropped: seq<int>,
    first: int,
    fetched: set<int>,
    queued: seq<int>,
    taken: seq<int>,
    dispatched: seq<int>)

  ghost predicate Init(s: State) {
    && !s.ran && s.loop == NotStarted && s.queue == [] && !s.closed && !s.sentOnClosed
    && s.dropped == [] && s.fetched == {} && s.queued == [] && s.taken == [] && s.dispatched == []
    && s.workers.Keys != {} && forall w | w in s.workers :: s.workers[w] == Idle
  }

  /** What the server promises: IDs in increasing order, none below the offset. */
  predicate IsBatch(batch: seq<int>, offset: int) {
    && (forall i | 0 <= i < |batch| :: offset <= batch[i])
    && (forall i, j | 0 <= i < j < |batch| :: batch[i] < batch[j])
  }

  // --------------------------------------------------------------------------
  // The steps

  /** The first call of Run. */
  predicate Starts(s: State, s': State) {
    !s.ran && s' == s.(ran := true, loop := StartupHooks, offset := 0, first := 0)
  }

  /** A startup hook fails: Run returns before it has started a worker. */
  predicate Aborts(s: State, s': State) {
    s.loop == StartupHooks && s' == s.(loop := Aborted)
  }

  predicate StartsWorkers(s: State, s': State) {
    s.loop == StartupHooks && s' == s.(loop := if s.dropPending then Skipping else Top)
  }

  /** Pending updates are dropped by resuming just after the last one, if there is any. */
  predicate Skips(s: State, s': State, latest: seq<int>) {
    && s.loop == Skipping
    && var offset := if latest == [] then 0 else latest[|latest| - 1] + 1;
       s' == s.(loop := Top, dropped := latest, offset := offset, first := offset)
  }

  predicate FailsToSkip(s: State, s': State) {
    s.loop == Skipping && s' == s.(loop := Stopping)
  }

  /** Any later call returns an error and does nothing. */
  predicate RefusesToStart(s: State, s': State) {
    s.ran && s' == s
  }

  predicate Cancels(s: State, s': State) {
    s' == s.(canceled := true)
  }

  predicate ChecksContext(s: State, s': State) {
    s.loop == Top && s' == s.(loop := if s.canceled then Stopping else Calling)
  }

  predicate Receives(s: State, s': State, batch: seq<int>) {
    && s.loop == Calling && IsBatch(batch, s.offset)
    && s' == s.(loop := Queueing(batch), fetched := s.fetched + set i | 0 <= i < |batch| :: batch[i])
  }

  predicate FailsToReceive(s: State, s': State) {
    s.loop == Calling && s' == s.(loop := if s.canceled then Stopping else Sleeping)
  }

  predicate Wakes(s: State, s': State) {
    s.loop == Sleeping && (s' == s.(loop := Top) || (s.canceled && s' == s.(loop := Stopping)))
  }

  /** The select that sends: there is room in the queue, or the channel is closed, which panics. */
  predicate Queues(s: State, s': State, capacity: nat) {
    && s.loop.Queueing? && s.loop.rest != [] && (s.closed || |s.queue| < capacity)
    && var id := s.loop.rest[0];
       s' == s.(loop := Queueing(s.loop.rest[1..]), queue := s.queue + [id], queued := s.queued + [id],
                offset := id + 1, sentOnClosed := s.sentOnClosed || s.closed)
  }

  predicate StopsQueueing(s: State, s': State) {
    s.loop.Queueing? && s.loop.rest != [] && s.canceled && s' == s.(loop := Stopping)
  }

  predicate FinishesBatch(s: State, s': State) {
    s.loop == Queueing([]) && s' == s.(loop := Top)
  }

  predicate ClosesQueue(s: State, s': State) {
    s.loop == Stopping && s' == s.(loop := Draining, closed := true)
  }

  predicate Returns(s: State, s': State) {
    && s.loop == Draining && (forall w | w in s.workers :: s.workers[w] == Exited)
    && s' == s.(loop := Returned)
  }

  /** Workers exist from startWorkers on. */
  predicate HasWorkers(s: State) {
    !s.loop.NotStarted? && !s.loop.StartupHooks? && !s.loop.Aborted?
  }

  predicate Takes(s: State, s': State, w: nat) {
    && HasWorkers(s) && w in s.workers && s.workers[w] == Idle && s.queue != []
    && s' == s.(workers := s.workers[w := Dispatching(s.queue[0])], queue := s.queue[1..],
                taken := s.taken + [s.queue[0]])
  }

  predicate Dispatches(s: State, s': State, w: nat) {
    && w in s.workers && s.workers[w].Dispatching?
    && s' == s.(workers := s.workers[w := Idle], dispatched := s.dispatched + [s.workers[w].id])
  }

  /** A worker leaves only when the queue is closed and empty, whatever the context says. */
  predicate Exits(s: State, s': State, w: nat) {
    && w in s.workers && s.workers[w] == Idle && s.closed && s.queue == []
    && s' == s.(workers := s.workers[w := Exited])
  }

  ghost predicate LoopSteps(s: State, s': State, capacity: nat) {
    || Starts(s, s') || Aborts(s, s') || StartsWorkers(s, s')
    || (exists latest :: Skips(s, s', latest)) || FailsToSkip(s, s')
    || RefusesToStart(s, s') || Cancels(s, s') || ChecksContext(s, s')
    || (exists batch :: Receives(s, s', batch)) || FailsToReceive(s, s') || Wakes(s, s')
    || Queues(s, s', capacity) || StopsQueueing(s, s') || FinishesBatch(s, s')
    || ClosesQueue(s, s') || Returns(s, s')
  }

  ghost predicate Next(s: State, s': State, capacity: nat) {
    || LoopSteps(s, s', capacity)
    || exists w :: Takes(s, s', w) || Dispatches(s, s', w) || Exits(s, s', w)
  }

  // --------------------------------------------------------------------------
  // What every interleaving keeps

  predicate Increasing(s: seq<int>) {
    forall i, j | 0 <= i < j < |s| :: s[i] < s[j]
  }

  /** The part of the current batch that is not queued yet. */
  function Rest(s: State): seq<int> {
    if s.loop.Queueing? then s.loop.rest else []
  }

  ghost predicate LoopOk(s: State) {
    && (s.loop == NotStarted <==> !s.ran) && !s.sentOnClosed
    && (s.closed <==> s.loop == Draining || s.loop == Returned)
    && (!s.ran || s.loop == StartupHooks || s.loop == Skipping ==> s.queued == [] && s.fetched == {})
  }

  /** The queue got the fetched updates in order, and the offset is just behind the last one queued. */
  ghost predicate QueuedOk(s: State) {
    && Increasing(s.queued) && IsBatch(Rest(s), s.offset)
    && (s.queued == [] || s.queued[|s.queued| - 1] < s.offset)
    && (s.ran ==> s.offset == if s.queued == [] then s.first else s.queued[|s.queued| - 1] + 1)
    && (s.ran ==> s.first <= s.offset)
  }

  /** What the server returned is queued, in the current batch, or behind the offset of a loop that has stopped. */
  ghost predicate FetchedOk(s: State) {
    && (forall id | id in s.queued :: s.first <= id)
    && Within(s.queued, s.fetched) && Within(Rest(s), s.fetched) && Passed(s.fetched, s.offset, s.queued)
    && (s.loop.Stopping? || s.loop.Draining? || s.loop.Returned? || Ahead(s.fetched, s.offset, Rest(s)))
  }

  ghost predicate Within(ids: seq<int>, fetched: set<int>) {
    forall id | id in ids :: id in fetched
  }

  ghost predicate Passed(fetched: set<int>, offset: int, queued: seq<int>) {
    forall id | id in fetched && id < offset :: id in queued
  }

  ghost predicate Ahead(fetched: set<int>, offset: int, rest: seq<int>) {
    forall id | id in fetched && offset <= id :: id in rest
  }

  /** What left the queue went to a worker, first in, first out. */
  ghost predicate TakenOk(s: State) {
    s.queued == s.taken + s.queue
  }

  function BusyWorkers(s: State): set<nat> {
    set w | w in s.workers && s.workers[w].Dispatching?
  }

  /** A busy worker has an update of its own, taken and not dispatched yet. */
  ghost predicate BusyOk(s: State) {
    && (forall w | w in BusyWorkers(s) :: s.workers[w].id in s.taken && s.workers[w].id !in s.dispatched)
    && (forall v, w | v in BusyWorkers(s) && w in BusyWorkers(s) && s.workers[v].id == s.workers[w].id :: v == w)
  }

  ghost predicate DispatchedOk(s: State) {
    && (forall id | id in s.dispatched :: id in s.taken)
    && (forall i, j | 0 <= i < j < |s.dispatched| :: s.dispatched[i] != s.dispatched[j])
  }

  /** What was taken is dispatched or in a worker's hands. */
  ghost predicate InHands(s: State, id: int) {
    id in s.dispatched || exists w :: w in s.workers && s.workers[w] == Dispatching(id)
  }

  ghost predicate HandledOk(s: State) {
    BusyOk(s) && DispatchedOk(s) && forall id | id in s.taken :: InHands(s, id)
  }

  /** Workers that have left did so with nothing more to come. */
  ghost predicate ExitsOk(s: State) {
    && s.workers.Keys != {}
    && (forall w | w in s.workers && s.workers[w].Exited? :: s.closed && s.queue == [])
    && (s.loop == Returned ==> forall w | w in s.workers :: s.workers[w] == Exited)
  }

  ghost predicate Inv(s: State) {
    LoopOk(s) && QueuedOk(s) && FetchedOk(s) && TakenOk(s) && HandledOk(s) && ExitsOk(s)
  }

  lemma ReceiveKeepsInv(s: State, s': State, batch: seq<int>)
    requires Inv(s) && Receives(s, s', batch)
    ensures Inv(s')
  {
    hide HandledOk, ExitsOk;
    assert HandledOk(s') && ExitsOk(s') by {
      HandlingUnchanged(s, s');
    }
  }

  lemma QueueKeepsInv(s: State, s': State, capacity: nat)
    requires Inv(s) && Queues(s, s', capacity)
    ensures Inv(s')
  {
    hide HandledOk, ExitsOk;
    assert HandledOk(s') by {
      HandlingUnchanged(s, s');
    }
    assert !s.closed;
    NoneExited(s, s');
    assert FetchedOk(s') by {
      QueueKeepsFetched(s, s', capacity);
    }
  }

  lemma QueueKeepsFetched(s: State, s': State, capacity: nat)
    requires QueuedOk(s) && FetchedOk(s) && LoopOk(s) && Queues(s, s', capacity)
    ensures FetchedOk(s')
  {
    var id := s.loop.rest[0];
    assert s.loop.rest == [id] + s.loop.rest[1..];
    forall x | x in s'.fetched && s'.offset <= x ensures x in Rest(s') {
      assert x in Rest(s) && x != id;
    }
    forall x | x in s'.fetched && x < s'.offset ensures x in s'.queued {
      if x >= s.offset {
        var k :| 0 <= k < |s.loop.rest| && s.loop.rest[k] == x;
        assert k == 0;
      }
    }
  }

  lemma HandlingUnchanged(s: State, s': State)
    requires HandledOk(s) && s'.workers == s.workers && s'.taken == s.taken && s'.dispatched == s.dispatched
    ensures HandledOk(s')
    ensures ExitsOk(s) && s'.queue == s.queue && s'.closed == s.closed && s'.loop != Returned ==> ExitsOk(s')
  {
    assert BusyOk(s') by {
      assert BusyWorkers(s') == BusyWorkers(s);
    }
    assert forall id | id in s.taken :: InHands(s, id) ==> InHands(s', id);
  }

  lemma QueueingUnchanged(s: State, s': State)
    requires LoopOk(s) && QueuedOk(s) && FetchedOk(s)
    requires exists workers, queue, taken, dispatched ::
               s' == s.(workers := workers, queue := queue, taken := taken, dispatched := dispatched)
    ensures LoopOk(s') && QueuedOk(s') && FetchedOk(s')
  {
    assert Rest(s') == Rest(s);
  }

  lemma NoneExited(s: State, s': State)
    requires ExitsOk(s) && !s.closed
    requires s'.workers == s.workers && s'.loop != Returned
    ensures ExitsOk(s')
  {
  }

  /** The steps of a run up to the first call of getUpdates. */
  predicate StartsUp(s: State, s': State, latest: seq<int>) {
    Starts(s, s') || Aborts(s, s') || StartsWorkers(s, s') || Skips(s, s', latest) || FailsToSkip(s, s')
  }

  lemma StartupKeepsQueue(s: State, s': State, latest: seq<int>)
    requires LoopOk(s) && QueuedOk(s) && FetchedOk(s) && StartsUp(s, s', latest)
    ensures LoopOk(s') && QueuedOk(s') && FetchedOk(s')
  {
    assert Rest(s) == [] && s.queued == [] && s.fetched == {};
    assert IsBatch([], s'.offset) && Within([], {}) && Passed({}, s'.offset, []) && Ahead({}, s'.offset, []);
    hide IsBatch, Increasing, Within, Passed, Ahead;
  }

  /** Nothing about the workers and what they handle changes, but that the queue may have been closed. */
  ghost predicate KeepsWorkers(s: State, s': State) {
    && s' == s.(ran := s'.ran, loop := s'.loop, canceled := s'.canceled, offset := s'.offset, closed := s'.closed,
                dropped := s'.dropped, first := s'.first)
    && (s.closed ==> s'.closed)
    && (s'.loop == Returned ==> s.loop == Returned || forall w | w in s.workers :: s.workers[w] == Exited)
  }

  lemma StartupTouchesNoWorker(s: State, s': State, latest: seq<int>)
    requires StartsUp(s, s', latest)
    ensures KeepsWorkers(s, s')
  {
    if Skips(s, s', latest) {
      SkipTouchesNoWorker(s, s', latest);
    } else {
      hide Skips;
    }
  }

  lemma SkipTouchesNoWorker(s: State, s': State, latest: seq<int>)
    requires Skips(s, s', latest)
    ensures KeepsWorkers(s, s')
  {
  }

  lemma WorkersUnchanged(s: State, s': State)
    requires TakenOk(s) && HandledOk(s) && ExitsOk(s) && KeepsWorkers(s, s')
    ensures TakenOk(s') && HandledOk(s') && ExitsOk(s')
  {
    HandlingUnchanged(s, s');
    hide HandledOk;
  }

  lemma StartupKeepsInv(s: State, s': State, latest: seq<int>)
    requires Inv(s) && StartsUp(s, s', latest)
    ensures Inv(s')
  {
    hide LoopOk, HandledOk, QueuedOk, FetchedOk, TakenOk, ExitsOk, StartsUp;
    StartupKeepsQueue(s, s', latest);
    StartupTouchesNoWorker(s, s', latest);
    WorkersUnchanged(s, s');
  }

  lemma LoopKeepsInv(s: State, s': State, capacity: nat)
    requires Inv(s) && LoopSteps(s, s', capacity)
    ensures Inv(s')
  {
    if {
      case Starts(s, s') || Aborts(s, s') || StartsWorkers(s, s') || FailsToSkip(s, s') => StartupKeepsInv(s, s', []);
      case exists latest :: Skips(s, s', latest) =>
        var latest :| Skips(s, s', latest);
        StartupKeepsInv(s, s', latest);
      case exists batch :: Receives(s, s', batch) =>
        var batch :| Receives(s, s', batch);
        ReceiveKeepsInv(s, s', batch);
      case Queues(s, s', capacity) => QueueKeepsInv(s, s', capacity);
      case RefusesToStart(s, s') =>
      case Moves(s, s') => MoveKeepsInv(s, s');
    }
  }

  /** The steps that only move the loop, close the queue or cancel the context. */
  predicate Moves(s: State, s': State) {
    || Cancels(s, s') || ChecksContext(s, s') || FailsToReceive(s, s') || Wakes(s, s') || StopsQueueing(s, s')
    || FinishesBatch(s, s') || ClosesQueue(s, s') || Returns(s, s')
  }

  lemma MoveKeepsQueue(s: State, s': State)
    requires LoopOk(s) && QueuedOk(s) && FetchedOk(s) && Moves(s, s')
    ensures LoopOk(s') && QueuedOk(s') && FetchedOk(s')
  {
    assert IsBatch([], s.offset) && Within([], s.fetched);
    hide IsBatch, Increasing, Within, Passed, Ahead;
    assert Rest(s') == Rest(s) || Rest(s') == [];
    if Cancels(s, s') || ChecksContext(s, s') || FailsToReceive(s, s') || Wakes(s, s') {
      hide StopsQueueing, FinishesBatch, ClosesQueue, Returns;
    } else {
      hide Cancels, ChecksContext, FailsToReceive, Wakes;
    }
  }

  lemma MoveTouchesNoWorker(s: State, s': State)
    requires Moves(s, s')
    ensures KeepsWorkers(s, s')
  {
  }

  lemma MoveKeepsInv(s: State, s': State)
    requires Inv(s) && Moves(s, s')
    ensures Inv(s')
  {
    hide LoopOk, HandledOk, QueuedOk, FetchedOk, TakenOk, ExitsOk, Moves;
    MoveKeepsQueue(s, s');
    MoveTouchesNoWorker(s, s');
    WorkersUnchanged(s, s');
  }

  /** The queue's head has not been taken before. */
  lemma HeadIsNew(s: State)
    requires QueuedOk(s) && TakenOk(s) && s.queue != []
    ensures s.queue[0] !in s.taken
  {
    assert s.queued[|s.taken|] == s.queue[0];
    forall k | 0 <= k < |s.taken| ensures s.taken[k] != s.queue[0] {
      assert s.queued[k] == s.taken[k];
    }
  }

  lemma TakeKeepsHandled(s: State, s': State, w: nat)
    requires HandledOk(s) && Takes(s, s', w) && s.queue[0] !in s.taken
    ensures HandledOk(s')
  {
    var id := s.queue[0];
    assert s'.workers[w] == Dispatching(id);
    assert id !in s.dispatched;
    assert BusyWorkers(s') == BusyWorkers(s) + {w} && w !in BusyWorkers(s);
    forall x | x in s'.taken ensures InHands(s', x) {
      if x != id && x !in s.dispatched {
        assert InHands(s, x);
        var v :| v in s.workers && s.workers[v] == Dispatching(x);
        assert s'.workers[v] == Dispatching(x);
      }
    }
  }

  lemma TakeKeepsInv(s: State, s': State, w: nat)
    requires Inv(s) && Takes(s, s', w)
    ensures Inv(s')
  {
    HeadIsNew(s);
    TakeKeepsHandled(s, s', w);
    QueueingUnchanged(s, s');
    hide HandledOk, LoopOk, QueuedOk, FetchedOk;
    assert TakenOk(s') by {
      hide ExitsOk;
      assert s.queue == [s.queue[0]] + s.queue[1..];
    }
    assert ExitsOk(s') by {
      hide TakenOk;
    }
  }

  lemma DispatchKeepsHandled(s: State, s': State, w: nat)
    requires HandledOk(s) && Dispatches(s, s', w)
    ensures HandledOk(s')
  {
    var id := s.workers[w].id;
    assert w in BusyWorkers(s);
    assert BusyWorkers(s') == BusyWorkers(s) - {w};
    forall x | x in s'.taken ensures InHands(s', x) {
      if x != id && x !in s.dispatched {
        assert InHands(s, x);
        var v :| v in s.workers && s.workers[v] == Dispatching(x);
        assert s'.workers[v] == Dispatching(x);
      }
    }
  }

  lemma DispatchKeepsInv(s: State, s': State, w: nat)
    requires Inv(s) && Dispatches(s, s', w)
    ensures Inv(s')
  {
    DispatchKeepsHandled(s, s', w);
    QueueingUnchanged(s, s');
    hide HandledOk, LoopOk, QueuedOk, FetchedOk;
    assert s'.loop != Returned;
  }

  lemma ExitKeepsHandled(s: State, s': State, w: nat)
    requires HandledOk(s) && Exits(s, s', w)
    ensures HandledOk(s')
  {
    assert BusyWorkers(s') == BusyWorkers(s);
    forall x | x in s'.taken ensures InHands(s', x) {
      if x !in s.dispatched {
        assert InHands(s, x);
        var v :| v in s.workers && s.workers[v] == Dispatching(x);
        assert s'.workers[v] == Dispatching(x);
      }
    }
  }

  lemma ExitKeepsInv(s: State, s': State, w: nat)
    requires Inv(s) && Exits(s, s', w)
    ensures Inv(s')
  {
    ExitKeepsHandled(s, s', w);
    QueueingUnchanged(s, s');
    hide HandledOk, LoopOk, QueuedOk, FetchedOk;
    assert s'.loop != Returned;
  }

  ghost predicate Run(run: seq<State>, capacity: nat) {
    && run != [] && Init(run[0])
    && forall i | 0 <= i < |run| - 1 :: Next(run[i], run[i + 1], capacity)
  }

  lemma {:induction false} RunKeepsInv(run: seq<State>, capacity: nat, i: nat)
    requires Run(run, capacity) && i < |run|
    ensures Inv(run[i])
  {
    if i > 0 {
      RunKeepsInv(run, capacity, i - 1);
      var s, s' := run[i - 1], run[i - 1 + 1];
      assert Next(s, s', capacity);
      hide Inv, Takes, Dispatches, Exits, LoopSteps, Init;
      if LoopSteps(s, s', capacity) {
        LoopKeepsInv(s, s', capacity);
      } else {
        var w :| Takes(s, s', w) || Dispatches(s, s', w) || Exits(s, s', w);
        if Takes(s, s', w) {
          TakeKeepsInv(s, s', w);
        } else if Dispatches(s, s', w) {
          DispatchKeepsInv(s, s', w);
        } else {
          ExitKeepsInv(s, s', w);
        }
      }
    }
  }

  // --------------------------------------------------------------------------
  // Dropped updates, and why a run ends

  /** The loop starts at 0, or just after the last update that was dropped. */
  ghost predicate DroppedOk(s: State) {
    && (s.dropped != [] ==> s.dropPending)
    && (!s.ran || s.loop == StartupHooks || s.loop == Skipping ==> s.dropped == [])
    && (s.loop == NotStarted ==> !s.ran) && (s.loop == Skipping ==> s.dropPending)
    && (s.ran ==> s.first == if s.dropped == [] then 0 else s.dropped[|s.dropped| - 1] + 1)
  }

  ghost predicate HasStopped(s: State) {
    s.loop.Stopping? || s.loop.Draining? || s.loop.Returned?
  }

  /** A loop that stops has been canceled, or could not find out what to drop and never asked for an update. */
  ghost predicate EndOk(s: State) {
    && (s.loop == StartupHooks || s.loop == Skipping ==> s.fetched == {})
    && (HasStopped(s) ==> s.canceled || (s.dropPending && s.dropped == [] && s.fetched == {}))
  }

  lemma StartupKeepsEnds(s: State, s': State, latest: seq<int>)
    requires LoopOk(s) && DroppedOk(s) && EndOk(s) && StartsUp(s, s', latest)
    ensures DroppedOk(s') && EndOk(s')
  {
  }

  lemma MoveKeepsEnds(s: State, s': State)
    requires DroppedOk(s) && EndOk(s) && Moves(s, s')
    ensures DroppedOk(s') && EndOk(s')
  {
    if Cancels(s, s') || ChecksContext(s, s') || FailsToReceive(s, s') || Wakes(s, s') {
      hide StopsQueueing, FinishesBatch, ClosesQueue, Returns;
    } else {
      hide Cancels, ChecksContext, FailsToReceive, Wakes;
    }
  }

  lemma FetchKeepsEnds(s: State, s': State, batch: seq<int>, capacity: nat)
    requires DroppedOk(s) && EndOk(s) && (Receives(s, s', batch) || Queues(s, s', capacity))
    ensures DroppedOk(s') && EndOk(s')
  {
    hide IsBatch;
  }

  lemma WorkKeepsEnds(s: State, s': State, w: nat)
    requires DroppedOk(s) && EndOk(s) && (Takes(s, s', w) || Dispatches(s, s', w) || Exits(s, s', w))
    ensures DroppedOk(s') && EndOk(s')
  {
  }

  lemma NextKeepsEnds(s: State, s': State, capacity: nat)
    requires LoopOk(s) && DroppedOk(s) && EndOk(s) && Next(s, s', capacity)
    ensures DroppedOk(s') && EndOk(s')
  {
    hide LoopOk, DroppedOk, EndOk, Starts, Aborts, StartsWorkers, Skips, FailsToSkip, RefusesToStart, Cancels;
    hide ChecksContext, Receives, FailsToReceive, Wakes, Queues, StopsQueueing, FinishesBatch, ClosesQueue, Returns;
    if {
      case Starts(s, s') || Aborts(s, s') || StartsWorkers(s, s') || FailsToSkip(s, s') => StartupKeepsEnds(s, s', []);
      case exists latest :: Skips(s, s', latest) =>
        var latest :| Skips(s, s', latest);
        StartupKeepsEnds(s, s', latest);
      case exists batch :: Receives(s, s', batch) =>
        var batch :| Receives(s, s', batch);
        FetchKeepsEnds(s, s', batch, capacity);
      case Queues(s, s', capacity) => FetchKeepsEnds(s, s', [], capacity);
      case RefusesToStart(s, s') => Refused(s, s');
      case Moves(s, s') => MoveKeepsEnds(s, s');
      case exists w :: Takes(s, s', w) || Dispatches(s, s', w) || Exits(s, s', w) =>
        var w :| Takes(s, s', w) || Dispatches(s, s', w) || Exits(s, s', w);
        WorkKeepsEnds(s, s', w);
    }
  }

  lemma Refused(s: State, s': State)
    requires RefusesToStart(s, s')
    ensures s' == s
  {
  }

  lemma {:induction false} RunKeepsEnds(run: seq<State>, capacity: nat, i: nat)
    requires Run(run, capacity) && i < |run|
    ensures DroppedOk(run[i]) && EndOk(run[i])
  {
    if i > 0 {
      hide Next, Init, DroppedOk, EndOk, QueuedOk, FetchedOk, TakenOk, HandledOk, ExitsOk;
      RunKeepsEnds(run, capacity, i - 1);
      RunKeepsInv(run, capacity, i - 1);
      assert Next(run[i - 1], run[i - 1 + 1], capacity);
      NextKeepsEnds(run[i - 1], run[i], capacity);
    }
  }

  // --------------------------------------------------------------------------
  // What polling promises

  /**
   In every state of every run: nothing is sent on the closed channel; updates are queued in increasing order of ID,
   so each at most once; and every update the server returned whose ID the offset has passed is queued, while every
   queued update is at or after the offset the run started with.
   */
  lemma QueuedOnceAndNoneSkipped(run: seq<State>, capacity: nat, i: nat)
    requires Run(run, capacity) && i < |run|
    ensures var s := run[i];
            && !s.sentOnClosed && (s.loop.Queueing? ==> !s.closed) && Increasing(s.queued)
            && (forall id | id in s.fetched && id < s.offset :: id in s.queued)
            && (forall id | id in s.queued :: s.first <= id < s.offset)
  {
    RunKeepsInv(run, capacity, i);
    var s := run[i];
    forall id | id in s.queued ensures id < s.offset {
      var k :| 0 <= k < |s.queued| && s.queued[k] == id;
    }
  }

  /**
   In every state of every run: the loop started at 0, or just after the last update that it was told to drop, and it
   queues and dispatches nothing up to there; so, the server's IDs increasing, no dropped update.
   */
  lemma DroppedStayDropped(run: seq<State>, capacity: nat, i: nat)
    requires Run(run, capacity) && i < |run|
    ensures var s := run[i];
            && (s.ran && s.dropped == [] ==> s.first == 0)
            && (s.ran && s.dropped != [] ==> s.dropPending && s.first == s.dropped[|s.dropped| - 1] + 1)
            && (s.dropped != [] ==>
                  forall id | id in s.queued || id in s.dispatched :: s.dropped[|s.dropped| - 1] < id)
            && (Increasing(s.dropped) ==> forall id | id in s.queued || id in s.dispatched :: id !in s.dropped)
  {
    RunKeepsEnds(run, capacity, i);
    RunKeepsInv(run, capacity, i);
    var s := run[i];
    assert forall id | id in s.dispatched :: id in s.queued by {
      DispatchedAtMostOnce(run, capacity, i);
    }
    hide Run, LoopOk, QueuedOk, TakenOk, HandledOk, ExitsOk;
    if Increasing(s.dropped) {
      forall id | id in s.queued ensures id !in s.dropped {
        forall k | 0 <= k < |s.dropped| ensures s.dropped[k] != id {
        }
      }
    }
  }

  lemma SomeMember(ids: seq<int>)
    ensures ids != [] ==> exists id :: id in ids
  {
    if ids != [] {
      var id := ids[0];
      assert id in ids;
    }
  }

  /** Run comes back from its loop only when it is canceled; without that, only if asking for the dropped ones failed. */
  lemma OnlyCancellationEnds(run: seq<State>, capacity: nat, i: nat)
    requires Run(run, capacity) && i < |run| && HasStopped(run[i]) && !run[i].canceled
    ensures run[i].dropPending && run[i].dropped == [] && run[i].fetched == {} && run[i].queued == []
  {
    RunKeepsEnds(run, capacity, i);
    RunKeepsInv(run, capacity, i);
    var s := run[i];
    hide Run, LoopOk, QueuedOk, TakenOk, HandledOk, ExitsOk;
    SomeMember(s.queued);
  }

  /** No update is ever dispatched twice, and only queued ones are. */
  lemma DispatchedAtMostOnce(run: seq<State>, capacity: nat, i: nat)
    requires Run(run, capacity) && i < |run|
    ensures forall j, k | 0 <= j < k < |run[i].dispatched| :: run[i].dispatched[j] != run[i].dispatched[k]
    ensures forall id | id in run[i].dispatched :: id in run[i].queued
  {
    RunKeepsInv(run, capacity, i);
  }

  /** When Run returns, every queued update has been dispatched. */
  lemma ReturnMeansDrained(run: seq<State>, capacity: nat, i: nat)
    requires Run(run, capacity) && i < |run| && run[i].loop == Returned
    ensures run[i].queue == [] && run[i].closed
    ensures forall id :: id in run[i].queued <==> id in run[i].dispatched
  {
    RunKeepsInv(run, capacity, i);
    var s := run[i];
    var w :| w in s.workers;
    assert s.workers[w].Exited?;
    assert s.queued == s.taken;
  }

  /** Shutdown never gets stuck: until every worker has left, some worker can move, canceled or not. */
  lemma ShutdownIsNeverStuck(run: seq<State>, capacity: nat, i: nat)
    requires Run(run, capacity) && i < |run| && run[i].loop == Draining
    ensures (exists s' :: Returns(run[i], s'))
            || exists s', w :: Takes(run[i], s', w) || Dispatches(run[i], s', w) || Exits(run[i], s', w)
  {
    RunKeepsInv(run, capacity, i);
    var s := run[i];
    if forall w | w in s.workers :: s.workers[w] == Exited {
      assert Returns(s, s.(loop := Returned));
    } else {
      var w :| w in s.workers && s.workers[w] != Exited;
      if s.workers[w].Dispatching? {
        assert Dispatches(s, s.(workers := s.workers[w := Idle], dispatched := s.dispatched + [s.workers[w].id]), w);
      } else if s.queue == [] {
        assert Exits(s, s.(workers := s.workers[w := Exited]), w);
      } else {
        assert Takes(s, s.(workers := s.workers[w := Dispatching(s.queue[0])], queue := s.queue[1..],
                           taken := s.taken + [s.queue[0]]), w);
      }
    }
  }

  /** Never more updates wait in the queue than it has room for. */
  lemma {:induction false} QueueIsBounded(run: seq<State>, capacity: nat, i: nat)
    requires Run(run, capacity) && i < |run|
    ensures |run[i].queue| <= capacity
  {
    if i > 0 {
      RunKeepsInv(run, capacity, i - 1);
      QueueIsBounded(run, capacity, i - 1);
      var s, s' := run[i - 1], run[i - 1 + 1];
      assert Next(s, s', capacity);
      hide Init, QueuedOk, FetchedOk, TakenOk, HandledOk, ExitsOk;
      if LoopSteps(s, s', capacity) {
        LoopGrowsQueue(s, s', capacity);
      }
    }
  }

  lemma LoopGrowsQueue(s: State, s': State, capacity: nat)
    requires LoopOk(s) && LoopSteps(s, s', capacity)
    ensures s'.queue == s.queue || (|s.queue| < capacity && |s'.queue| == |s.queue| + 1)
  {
    hide Starts, Aborts, StartsWorkers, Skips, FailsToSkip, RefusesToStart, Cancels, ChecksContext, Receives;
    hide FailsToReceive, Wakes, StopsQueueing, FinishesBatch, ClosesQueue, Returns;
    if !Queues(s, s', capacity) {
      OthersKeepQueue(s, s', capacity);
    }
  }

  lemma OthersKeepQueue(s: State, s': State, capacity: nat)
    requires LoopSteps(s, s', capacity) && !Queues(s, s', capacity)
    ensures s'.queue == s.queue
  {
    hide Starts, Aborts, StartsWorkers, Skips, FailsToSkip, RefusesToStart, Cancels, ChecksContext;
    hide FailsToReceive, Wakes, StopsQueueing, FinishesBatch, ClosesQueue, Returns, Queues;
    if {
      case Starts(s, s') || Aborts(s, s') || StartsWorkers(s, s') || FailsToSkip(s, s') =>
        StartupTouchesNoWorker(s, s', []);
      case exists latest :: Skips(s, s', latest) =>
        var latest :| Skips(s, s', latest);
        SkipTouchesNoWorker(s, s', latest);
      case exists batch :: Receives(s, s', batch) =>
      case RefusesToStart(s, s') => Refused(s, s');
      case Moves(s, s') => MoveTouchesNoWorker(s, s');
    }
  }

  /** Once the context is canceled, the loop can stop at once, wherever it waits. */
  lemma CanceledLoopCanStop(s: State, capacity: nat)
    requires s.canceled
    requires s.loop.Top? || s.loop.Calling? || s.loop.Sleeping? || (s.loop.Queueing? && s.loop.rest != [])
    ensures LoopSteps(s, s.(loop := Stopping), capacity)
  {
    var s' := s.(loop := Stopping);
    assert ChecksContext(s, s') || FailsToReceive(s, s') || Wakes(s, s') || StopsQueueing(s, s');
  }

  /** A step of a run that is neither the cancellation nor a refused call. */
  ghost predicate Proceeds(s: State, s': State, capacity: nat) {
    || Aborts(s, s') || StartsWorkers(s, s') || FailsToSkip(s, s') || ChecksContext(s, s')
    || (exists batch :: Receives(s, s', batch)) || Wakes(s, s') || Queues(s, s', capacity) || FinishesBatch(s, s')
    || ClosesQueue(s, s') || Returns(s, s')
    || exists w :: Takes(s, s', w) || Dispatches(s, s', w) || Exits(s, s', w)
  }

  /** A run that has started is never stuck before it is back, canceled or not, whatever it is doing. */
  lemma RunIsNeverStuck(run: seq<State>, capacity: nat, i: nat) returns (s': State)
    requires Run(run, capacity) && i < |run| && capacity > 0
    requires run[i].loop != NotStarted && run[i].loop != Aborted && run[i].loop != Returned
    ensures Proceeds(run[i], s', capacity)
  {
    var s := run[i];
    RunKeepsInv(run, capacity, i);
    match s.loop {
      case StartupHooks =>
        s' := s.(loop := Aborted);
        assert Aborts(s, s');
      case Skipping =>
        s' := s.(loop := Stopping);
        assert FailsToSkip(s, s');
      case Top =>
        s' := s.(loop := if s.canceled then Stopping else Calling);
        assert ChecksContext(s, s');
      case Calling =>
        var batch := [s.offset];
        s' := s.(loop := Queueing(batch), fetched := s.fetched + set i | 0 <= i < |batch| :: batch[i]);
        assert Receives(s, s', batch);
      case Sleeping =>
        s' := s.(loop := Top);
        assert Wakes(s, s');
      case Queueing(rest) =>
        s' := QueueingProceeds(s, capacity);
      case Stopping =>
        s' := s.(loop := Draining, closed := true);
        assert ClosesQueue(s, s');
      case Draining =>
        ShutdownIsNeverStuck(run, capacity, i);
        if next :| Returns(s, next) {
          s' := next;
        } else {
          var next, w :| Takes(s, next, w) || Dispatches(s, next, w) || Exits(s, next, w);
          s' := next;
        }
    }
  }

  /** A full queue is one that a worker can take from, now or after what it is dispatching. */
  lemma QueueingProceeds(s: State, capacity: nat) returns (s': State)
    requires Inv(s) && s.loop.Queueing? && capacity > 0
    ensures Proceeds(s, s', capacity)
  {
    hide QueuedOk, FetchedOk, TakenOk, HandledOk;
    if s.loop.rest == [] {
      s' := s.(loop := Top);
      assert FinishesBatch(s, s');
    } else if |s.queue| < capacity {
      var id := s.loop.rest[0];
      s' := s.(loop := Queueing(s.loop.rest[1..]), queue := s.queue + [id], queued := s.queued + [id], offset := id + 1,
               sentOnClosed := s.sentOnClosed || s.closed);
      assert Queues(s, s', capacity);
    } else {
      var w :| w in s.workers;
      if s.workers[w].Dispatching? {
        s' := s.(workers := s.workers[w := Idle], dispatched := s.dispatched + [s.workers[w].id]);
        assert Dispatches(s, s', w);
      } else {
        s' := s.(workers := s.workers[w := Dispatching(s.queue[0])], queue := s.queue[1..], taken := s.taken + [s.queue[0]]);
        assert Takes(s, s', w);
      }
    }
  }
}
