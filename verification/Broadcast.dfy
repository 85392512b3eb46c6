/**
 A broadcast (broadcast.go): one feeder, any number of workers that share a pacer, a result that they update one at
 a time, and a context that can be canceled at any moment. Modelled as interleaved atomic steps; what the pacer and
 the send function answer is left open.
 */
module Broadcast {
  import opened Options

  datatype ChatID = ChatID(id: int)

  /** A send's error as far as a broadcast looks at it. */
  datatype SendError = BlockedByUser | Flood(retryAfter: Option<nat>) | Canceled | Other(code: int)

  type SendResult = Option<SendError>

  datatype Summary = Summary(sent: nat, failed: nat, blocked: seq<ChatID>, errors: map<ChatID, SendError>)

  datatype Progress = Progress(total: nat, sent: nat, failed: nat, blocked: nat, remaining: int)

  const NOTHING := Summary(0, 0, [], map[])

  /** One resolution, in terms of the summary before it. */
  function Resolved(r: Summary, chat: ChatID, err: SendResult): Summary {
    match err
    case None => r.(sent := r.sent + 1)
    case Some(e) =>
      Summary(r.sent, r.failed + 1, if e.BlockedByUser? then r.blocked + [chat] else r.blocked, r.errors[chat := e])
  }

  function Report(r: Summary, total: nat): Progress {
    Progress(total, r.sent, r.failed, |r.blocked|, total - r.sent - r.failed)
  }

  /** The result that all workers share, and the progress callback's calls. */
  class SharedResult {
    const total: nat
    var sent: nat
    var failed: nat
    var blocked: seq<ChatID>
    var errors: map<ChatID, SendError>
    ghost var calls: seq<Progress>

    ghost function Abs(): Summary
      reads this
    {
      Summary(sent, failed, blocked, errors)
    }

    constructor (total: nat)
      ensures Abs() == NOTHING && calls == [] && this.total == total
    {
      this.total, sent, failed, blocked, errors, calls := total, 0, 0, [], map[], [];
    }

    method Resolve(chat: ChatID, err: SendResult)
      modifies this
      ensures Abs() == Resolved(old(Abs()), chat, err)
      ensures calls == old(calls) + [Report(Abs(), total)]
      ensures sent == old(sent) + (if err == None then 1 else 0) && failed == old(failed) + if err == None then 0 else 1
      ensures blocked == old(blocked) + if err == Some(BlockedByUser) then [chat] else []
      ensures errors == if err.Some? then old(errors)[chat := err.value] else old(errors)
      ensures calls == old(calls) + [Progress(total, sent, failed, |blocked|, total - sent - failed)]
    {
      if err.None? {
        sent := sent + 1;
      } else {
        failed := failed + 1;
        errors := errors[chat := err.value];
        if err.value.BlockedByUser? {
          blocked := blocked + [chat];
        }
      }
      calls := calls + [Progress(total, sent, failed, |blocked|, total - sent - failed)];
    }
  }

  // --------------------------------------------------------------------------
  // The state

  /** Where a worker is with the chat it works on, a chat being an index into the broadcast's list. */
  datatype Phase =
    | Idle
    | Pacing(job: nat)
    | Sending(job: nat)
    | Pausing(job: nat)
    | Repacing(job: nat)
    | Resending(job: nat)
    | Resolving(job: nat, err: SendResult)
    | Exited
  {
    predicate Busy() {
      !Idle? && !Exited?
    }
  }

  datatype Resolution = Resolution(job: nat, err: SendResult)

  /**
   next is the feeder's position; closed, that it has closed the channel. sends counts the send calls per chat, and
   log lists the resolutions in order.
   */
  datatype State = State(
    next: nat,
    closed: bool,
    canceled: bool,
    workers: map<nat, Phase>,
    result: Summary,
    calls: seq<Progress>,
    sends: map<nat, nat>,
    log: seq<Resolution>)

  function SendsOf(s: State, job: nat): nat {
    if job in s.sends then s.sends[job] else 0
  }

  ghost predicate Init(s: State) {
    && s == State(0, false, false, s.workers, NOTHING, [], map[], [])
    && forall w | w in s.workers :: s.workers[w] == Idle
  }

  // --------------------------------------------------------------------------
  // The steps

  function To(s: State, w: nat, p: Phase): State {
    s.(workers := s.workers[w := p])
  }

  /** A worker receives the next chat. */
  predicate Takes(chats: seq<ChatID>, s: State, s': State, w: nat) {
    && w in s.workers && s.workers[w] == Idle && !s.closed && s.next < |chats|
    && s' == To(s, w, Pacing(s.next)).(next := s.next + 1)
  }

  /** The feeder is done, or sees the cancellation, and closes the channel. */
  predicate Closes(chats: seq<ChatID>, s: State, s': State) {
    !s.closed && (s.next == |chats| || s.canceled) && s' == s.(closed := true)
  }

  predicate Cancels(s: State, s': State) {
    s' == s.(canceled := true)
  }

  predicate Exits(s: State, s': State, w: nat) {
    w in s.workers && s.workers[w] == Idle && s.closed && s' == To(s, w, Exited)
  }

  /** The pacer's Wait returns: with a token, or, once canceled, with the context's error. */
  predicate Paces(s: State, s': State, w: nat) {
    && w in s.workers
    && match s.workers[w]
       case Pacing(job) => s' == To(s, w, Sending(job)) || (s.canceled && s' == To(s, w, Resolving(job, Some(Canceled))))
       case Repacing(job) => s' == To(s, w, Resending(job)) || (s.canceled && s' == To(s, w, Resolving(job, Some(Canceled))))
       case _ => false
  }

  /** The send function returns err: a first flood error leads to a retry, anything else is final. */
  predicate Sends(s: State, s': State, w: nat, err: SendResult) {
    && w in s.workers
    && match s.workers[w]
       case Sending(job) =>
         s' == To(s, w, if err.Some? && err.value.Flood? then Pausing(job) else Resolving(job, err))
               .(sends := s.sends[job := SendsOf(s, job) + 1])
       case Resending(job) => s' == To(s, w, Resolving(job, err)).(sends := s.sends[job := SendsOf(s, job) + 1])
       case _ => false
  }

  predicate Pauses(s: State, s': State, w: nat) {
    w in s.workers && s.workers[w].Pausing? && s' == To(s, w, Repacing(s.workers[w].job))
  }

  predicate Resolves(chats: seq<ChatID>, s: State, s': State, w: nat) {
    && w in s.workers && s.workers[w].Resolving? && s.workers[w].job < |chats|
    && var job, err := s.workers[w].job, s.workers[w].err;
       var result := Resolved(s.result, chats[job], err);
       s' == To(s, w, Idle).(result := result, calls := s.calls + [Report(result, |chats|)],
                             log := s.log + [Resolution(job, err)])
  }

  ghost predicate Next(chats: seq<ChatID>, s: State, s': State) {
    || Closes(chats, s, s')
    || Cancels(s, s')
    || exists w :: WorkerSteps(chats, s, s', w)
  }

  ghost predicate WorkerSteps(chats: seq<ChatID>, s: State, s': State, w: nat) {
    || Takes(chats, s, s', w) || Exits(s, s', w) || Paces(s, s', w) || Pauses(s, s', w) || Resolves(chats, s, s', w)
    || exists err :: Sends(s, s', w, err)
  }

  /** Broadcast returns: every worker has exited. */
  ghost predicate Returned(s: State) {
    s.closed && forall w | w in s.workers :: s.workers[w] == Exited
  }

  // --------------------------------------------------------------------------
  // What every interleaving keeps

  function BusyWorkers(s: State): set<nat> {
    set w | w in s.workers && s.workers[w].Busy()
  }

  /** The summary of a log. */
  function Tally(chats: seq<ChatID>, log: seq<Resolution>): Summary
    requires forall i | 0 <= i < |log| :: log[i].job < |chats|
  {
    if log == [] then NOTHING
    else Resolved(Tally(chats, log[..|log| - 1]), chats[log[|log| - 1].job], log[|log| - 1].err)
  }

  /** Every chat with a worker was handed out, to that worker only. */
  ghost predicate WorkersOk(s: State) {
    && (forall w | w in s.workers && s.workers[w].Busy() :: s.workers[w].job < s.next)
    && (forall v, w | v in s.workers && w in s.workers && s.workers[v].Busy() && s.workers[w].Busy() ::
          s.workers[v].job == s.workers[w].job ==> v == w)
  }

  /** Every resolved chat was handed out, and was resolved once. */
  ghost predicate LogOk(s: State) {
    && (forall i | 0 <= i < |s.log| :: s.log[i].job < s.next)
    && (forall i, j | 0 <= i < j < |s.log| :: s.log[i].job != s.log[j].job)
  }

  /** No resolved chat is with a worker. */
  ghost predicate ApartOk(s: State) {
    forall i, w | 0 <= i < |s.log| && w in s.workers && s.workers[w].Busy() :: s.workers[w].job != s.log[i].job
  }

  /** Every chat handed out is with a worker or resolved. */
  ghost predicate CountOk(s: State) {
    |BusyWorkers(s)| + |s.log| == s.next
  }

  function MaySend(p: Phase): nat {
    match p
    case Pacing(_) => 0
    case Sending(_) => 0
    case Pausing(_) => 1
    case Repacing(_) => 1
    case Resending(_) => 1
    case _ => 2
  }

  ghost predicate SendsOk(s: State) {
    && (forall job | job in s.sends :: job < s.next && s.sends[job] <= 2)
    && (forall w | w in s.workers && s.workers[w].Busy() :: SendsOf(s, s.workers[w].job) <= MaySend(s.workers[w]))
  }

  ghost predicate ResultOk(chats: seq<ChatID>, s: State) {
    && s.next <= |chats| && (s.closed ==> s.next == |chats| || s.canceled)
    && (forall i | 0 <= i < |s.log| :: s.log[i].job < |chats|)
    && s.result == Tally(chats, s.log)
    && |s.calls| == |s.log|
    && forall i | 0 <= i < |s.calls| :: s.calls[i] == Report(Tally(chats, s.log[..i + 1]), |chats|)
  }

  ghost predicate Inv(chats: seq<ChatID>, s: State) {
    WorkersOk(s) && LogOk(s) && ApartOk(s) && CountOk(s) && SendsOk(s) && ResultOk(chats, s)
  }

  lemma BusyAfter(s: State, w: nat, p: Phase)
    requires w in s.workers
    ensures BusyWorkers(To(s, w, p)) == if p.Busy() then BusyWorkers(s) + {w} else BusyWorkers(s) - {w}
  {
  }

  predicate Moves(s: State, s': State, w: nat, p: Phase, calls: nat) {
    && w in s.workers && s.workers[w].Busy() && p.Busy() && p.job == s.workers[w].job
    && MaySend(s.workers[w]) + (if calls == 0 then 0 else 1) <= MaySend(p)
    && s' == To(s, w, p).(sends := if calls == 0 then s.sends else s.sends[p.job := SendsOf(s, p.job) + 1])
  }

  lemma MoveKeepsSends(s: State, s': State, w: nat, p: Phase, calls: nat)
    requires WorkersOk(s) && SendsOk(s) && Moves(s, s', w, p, calls)
    ensures SendsOk(s')
  {
  }

  lemma MoveKeepsPlaces(s: State, s': State, w: nat, p: Phase, calls: nat)
    requires WorkersOk(s) && ApartOk(s) && CountOk(s) && Moves(s, s', w, p, calls)
    ensures WorkersOk(s') && ApartOk(s') && CountOk(s')
  {
    hide MaySend, SendsOf;
    assert CountOk(s') by {
      BusyAfter(s, w, p);
      assert BusyWorkers(s') == BusyWorkers(To(s, w, p)) == BusyWorkers(s);
    }
  }

  /** A worker moves on with the same chat, and calls send or not. */
  lemma MoveKeepsInv(chats: seq<ChatID>, s: State, s': State, w: nat, p: Phase, calls: nat)
    requires Inv(chats, s) && Moves(s, s', w, p, calls)
    ensures Inv(chats, s')
  {
    hide WorkersOk, ApartOk, CountOk, SendsOk, MaySend, SendsOf;
    MoveKeepsSends(s, s', w, p, calls);
    MoveKeepsPlaces(s, s', w, p, calls);
    assert ResultOk(chats, s') by {
      ResultDependsOn(chats, s, s');
    }
    hide ResultOk;
  }

  lemma ResultDependsOn(chats: seq<ChatID>, s: State, s': State)
    requires ResultOk(chats, s) && s'.log == s.log && s'.calls == s.calls && s'.result == s.result
    requires s.next <= s'.next <= |chats| && (s'.closed ==> s'.next == |chats| || s'.canceled)
    ensures ResultOk(chats, s')
  {
  }

  lemma TakeKeepsInv(chats: seq<ChatID>, s: State, s': State, w: nat)
    requires Inv(chats, s) && Takes(chats, s, s', w)
    ensures Inv(chats, s')
  {
    assert CountOk(s') by {
      BusyAfter(s, w, Pacing(s.next));
      assert BusyWorkers(s') == BusyWorkers(To(s, w, Pacing(s.next)));
      assert w !in BusyWorkers(s);
    }
    ResultDependsOn(chats, s, s');
    hide CountOk, ResultOk;
    assert SendsOk(s') by {
      hide LogOk, ApartOk;
    }
    hide SendsOk;
    assert WorkersOk(s') by {
      hide LogOk, ApartOk;
    }
    assert ApartOk(s');
  }

  lemma ResolveKeepsResult(chats: seq<ChatID>, s: State, s': State, w: nat)
    requires ResultOk(chats, s) && Resolves(chats, s, s', w)
    ensures ResultOk(chats, s')
  {
    hide Report, Resolved;
    assert s'.log[..|s.log|] == s.log && s'.log[..|s'.log|] == s'.log;
    forall i | 0 <= i < |s.log| ensures s'.calls[i] == Report(Tally(chats, s'.log[..i + 1]), |chats|) {
      assert s'.log[..i + 1] == s.log[..i + 1];
    }
  }

  lemma ResolveKeepsPlaces(chats: seq<ChatID>, s: State, s': State, w: nat)
    requires WorkersOk(s) && LogOk(s) && ApartOk(s) && CountOk(s) && Resolves(chats, s, s', w)
    ensures WorkersOk(s') && LogOk(s') && ApartOk(s') && CountOk(s')
  {
    hide Resolved, Report;
    assert CountOk(s') by {
      BusyAfter(s, w, Idle);
      assert BusyWorkers(s') == BusyWorkers(To(s, w, Idle));
      assert w in BusyWorkers(s);
    }
    hide CountOk;
    assert LogOk(s') by {
      hide WorkersOk;
    }
    assert ApartOk(s') by {
      hide LogOk;
    }
    hide LogOk, ApartOk;
  }

  lemma ResolveKeepsInv(chats: seq<ChatID>, s: State, s': State, w: nat)
    requires Inv(chats, s) && Resolves(chats, s, s', w)
    ensures Inv(chats, s')
  {
    hide ResultOk, Resolved, Report;
    ResolveKeepsResult(chats, s, s', w);
    ResolveKeepsPlaces(chats, s, s', w);
    hide WorkersOk, LogOk, ApartOk, CountOk;
  }

  lemma FeederKeepsInv(chats: seq<ChatID>, s: State, s': State)
    requires Inv(chats, s) && (Closes(chats, s, s') || Cancels(s, s'))
    ensures Inv(chats, s')
  {
    assert BusyWorkers(s') == BusyWorkers(s);
    ResultDependsOn(chats, s, s');
    hide ResultOk;
  }

  lemma ExitKeepsInv(chats: seq<ChatID>, s: State, s': State, w: nat)
    requires Inv(chats, s) && Exits(s, s', w)
    ensures Inv(chats, s')
  {
    assert CountOk(s') by {
      BusyAfter(s, w, Exited);
      assert BusyWorkers(s') == BusyWorkers(s);
    }
    ResultDependsOn(chats, s, s');
    hide CountOk, ResultOk;
    assert SendsOk(s') by {
      hide LogOk, ApartOk;
    }
    hide SendsOk;
    assert WorkersOk(s') by {
      hide LogOk, ApartOk;
    }
    assert ApartOk(s');
  }

  lemma PhaseMoves(s: State, s': State, w: nat)
    requires Paces(s, s', w) || Pauses(s, s', w) || exists err :: Sends(s, s', w, err)
    ensures w in s.workers && w in s'.workers
    ensures Moves(s, s', w, s'.workers[w], if s.workers[w].Sending? || s.workers[w].Resending? then 1 else 0)
  {
  }

  lemma WorkKeepsInv(chats: seq<ChatID>, s: State, s': State, w: nat)
    requires Inv(chats, s) && (Paces(s, s', w) || Pauses(s, s', w) || exists err :: Sends(s, s', w, err))
    ensures Inv(chats, s')
  {
    hide Inv, MaySend, SendsOf, Moves;
    var p := s.workers[w];
    PhaseMoves(s, s', w);
    MoveKeepsInv(chats, s, s', w, s'.workers[w], if p.Sending? || p.Resending? then 1 else 0);
  }

  lemma NextKeepsInv(chats: seq<ChatID>, s: State, s': State)
    requires Inv(chats, s) && Next(chats, s, s')
    ensures Inv(chats, s')
  {
    hide Inv, Closes, Cancels, Takes, Exits, Paces, Pauses, Resolves, Sends;
    if Closes(chats, s, s') || Cancels(s, s') {
      FeederKeepsInv(chats, s, s');
    } else {
      var w :| WorkerSteps(chats, s, s', w);
      if Takes(chats, s, s', w) {
        TakeKeepsInv(chats, s, s', w);
      } else if Exits(s, s', w) {
        ExitKeepsInv(chats, s, s', w);
      } else if Resolves(chats, s, s', w) {
        ResolveKeepsInv(chats, s, s', w);
      } else {
        WorkKeepsInv(chats, s, s', w);
      }
    }
  }

  ghost predicate Run(chats: seq<ChatID>, run: seq<State>) {
    && run != [] && Init(run[0])
    && forall i | 0 <= i < |run| - 1 :: Next(chats, run[i], run[i + 1])
  }

  lemma {:induction false} RunKeepsInv(chats: seq<ChatID>, run: seq<State>, i: nat)
    requires Run(chats, run) && i < |run|
    ensures Inv(chats, run[i])
  {
    if i == 0 {
      assert BusyWorkers(run[0]) == {};
    } else {
      hide Inv, Next;
      RunKeepsInv(chats, run, i - 1);
      assert Next(chats, run[i - 1], run[i - 1 + 1]);
      NextKeepsInv(chats, run[i - 1], run[i]);
    }
  }

  // --------------------------------------------------------------------------
  // What a broadcast promises

  lemma {:induction false} TallyCounts(chats: seq<ChatID>, log: seq<Resolution>)
    requires forall i | 0 <= i < |log| :: log[i].job < |chats|
    ensures Tally(chats, log).sent + Tally(chats, log).failed == |log|
    ensures Tally(chats, log).errors.Keys == set i | 0 <= i < |log| && log[i].err.Some? :: chats[log[i].job]
  {
    if log != [] {
      TallyCounts(chats, log[..|log| - 1]);
    }
  }

  /**
   In every state of every run, canceled or not: each chat handed to a worker is with exactly one worker or resolved
   exactly once, and send was called for it at most twice; Sent + Failed is the number of resolutions; and the keys
   of Errors are exactly the chats that failed, blocked ones included.
   */
  lemma EveryChatOnce(chats: seq<ChatID>, run: seq<State>, i: nat)
    requires Run(chats, run) && i < |run|
    ensures var s := run[i];
            && s.next <= |chats| && |BusyWorkers(s)| + |s.log| == s.next
            && (forall j, k | 0 <= j < k < |s.log| :: s.log[j].job != s.log[k].job)
            && (forall j, w | 0 <= j < |s.log| && w in BusyWorkers(s) :: s.log[j].job != s.workers[w].job)
            && (forall v, w | v in BusyWorkers(s) && w in BusyWorkers(s) && v != w :: s.workers[v].job != s.workers[w].job)
            && (forall job :: SendsOf(s, job) <= 2)
            && s.result.sent + s.result.failed == |s.log|
            && (forall j | 0 <= j < |s.log| :: s.log[j].job < |chats|)
            && s.result.errors.Keys == set j | 0 <= j < |s.log| && s.log[j].err.Some? :: chats[s.log[j].job]
  {
    RunKeepsInv(chats, run, i);
    TallyCounts(chats, run[i].log);
  }

  /** The progress callback runs once per resolution; Remaining drops by one each time and is never negative. */
  lemma ProgressCountsDown(chats: seq<ChatID>, run: seq<State>, i: nat, k: nat)
    requires Run(chats, run) && i < |run| && k < |run[i].calls|
    ensures |run[i].calls| == run[i].result.sent + run[i].result.failed
    ensures var p := run[i].calls[k];
            p.total == |chats| && p.sent + p.failed == k + 1 && p.remaining == |chats| - (k + 1) >= 0
  {
    RunKeepsInv(chats, run, i);
    TallyCounts(chats, run[i].log);
    TallyCounts(chats, run[i].log[..k + 1]);
  }

  /** A broadcast that returns without having been canceled has resolved every chat. */
  lemma UncanceledRunIsComplete(chats: seq<ChatID>, run: seq<State>, i: nat)
    requires Run(chats, run) && i < |run| && Returned(run[i]) && !run[i].canceled
    ensures run[i].result.sent + run[i].result.failed == |chats|
  {
    RunKeepsInv(chats, run, i);
    TallyCounts(chats, run[i].log);
    assert BusyWorkers(run[i]) == {};
  }

  // --------------------------------------------------------------------------
  // Blocked chats and errors

  /** The chats of the blocked failures, in the order of their resolutions. */
  function BlockedIn(chats: seq<ChatID>, log: seq<Resolution>): seq<ChatID>
    requires forall i | 0 <= i < |log| :: log[i].job < |chats|
  {
    if log == [] then []
    else BlockedIn(chats, log[..|log| - 1])
         + (if log[|log| - 1].err == Some(BlockedByUser) then [chats[log[|log| - 1].job]] else [])
  }

  /** What the comment on Errors says it holds: chats that failed without being blocked, each with its last such error. */
  function Documented(chats: seq<ChatID>, log: seq<Resolution>): map<ChatID, SendError>
    requires forall i | 0 <= i < |log| :: log[i].job < |chats|
  {
    if log == [] then map[]
    else
      var before, last := Documented(chats, log[..|log| - 1]), log[|log| - 1];
      if last.err.Some? && !last.err.value.BlockedByUser? then before[chats[last.job] := last.err.value] else before
  }

  lemma {:induction false} BlockedAreListed(chats: seq<ChatID>, log: seq<Resolution>)
    requires forall i | 0 <= i < |log| :: log[i].job < |chats|
    ensures Tally(chats, log).blocked == BlockedIn(chats, log)
    ensures forall c :: c in BlockedIn(chats, log)
              <==> exists j | 0 <= j < |log| :: log[j].err == Some(BlockedByUser) && chats[log[j].job] == c
  {
    if log != [] {
      var before, last := log[..|log| - 1], log[|log| - 1];
      BlockedAreListed(chats, before);
      assert log == before + [last];
      forall c ensures c in BlockedIn(chats, log)
                 <==> exists j | 0 <= j < |log| :: log[j].err == Some(BlockedByUser) && chats[log[j].job] == c
      {
        if j :| 0 <= j < |before| && before[j].err == Some(BlockedByUser) && chats[before[j].job] == c {
          assert log[j] == before[j];
        }
        if last.err == Some(BlockedByUser) && chats[last.job] == c {
          assert log[|log| - 1] == last;
        }
      }
    }
  }

  /** documented has no blocked error, and every error that is not a blocked one. */
  predicate LeavesOutBlocked(errors: map<ChatID, SendError>, documented: map<ChatID, SendError>) {
    && (forall c | c in documented :: c in errors && !documented[c].BlockedByUser?)
    && (forall c | c in errors && !errors[c].BlockedByUser? :: c in documented && documented[c] == errors[c])
  }

  lemma {:induction false} ErrorsAgainstComment(chats: seq<ChatID>, log: seq<Resolution>)
    requires forall i | 0 <= i < |log| :: log[i].job < |chats|
    ensures LeavesOutBlocked(Tally(chats, log).errors, Documented(chats, log))
  {
    if log != [] {
      var before, last := log[..|log| - 1], log[|log| - 1];
      ErrorsAgainstComment(chats, before);
      var errors, documented := Tally(chats, before).errors, Documented(chats, before);
      var errors', documented' := Tally(chats, log).errors, Documented(chats, log);
      var chat := chats[last.job];
      assert errors' == if last.err.Some? then errors[chat := last.err.value] else errors;
      assert documented' == if last.err.Some? && !last.err.value.BlockedByUser? then documented[chat := last.err.value]
                            else documented;
      hide Tally, Documented;
      if last.err.Some? {
        OneMoreError(errors, documented, chat, last.err.value);
      }
    }
  }

  lemma OneMoreError(errors: map<ChatID, SendError>, documented: map<ChatID, SendError>, chat: ChatID, e: SendError)
    requires LeavesOutBlocked(errors, documented)
    ensures LeavesOutBlocked(errors[chat := e], if e.BlockedByUser? then documented else documented[chat := e])
  {
  }

  /** When every chat is resolved once, its error is the one of its resolution. */
  lemma {:induction false} ErrorIsOwn(chats: seq<ChatID>, log: seq<Resolution>, j: nat)
    requires forall i | 0 <= i < |log| :: log[i].job < |chats|
    requires forall i, k | 0 <= i < k < |log| :: chats[log[i].job] != chats[log[k].job]
    requires j < |log| && log[j].err.Some?
    ensures var errors := Tally(chats, log).errors;
            chats[log[j].job] in errors && errors[chats[log[j].job]] == log[j].err.value
  {
    if j < |log| - 1 {
      ErrorIsOwn(chats, log[..|log| - 1], j);
    }
  }

  /**
   In every state of every run Blocked lists exactly the blocked failures, in order. Errors is what its comment says
   exactly when no chat's error is that it was blocked; for distinct chats, when send reported no chat as blocked.
   */
  lemma ErrorsAreAsDocumentedExactly(chats: seq<ChatID>, run: seq<State>, i: nat)
    requires Run(chats, run) && i < |run|
    ensures forall j | 0 <= j < |run[i].log| :: run[i].log[j].job < |chats|
    ensures var s := run[i];
            && s.result.blocked == BlockedIn(chats, s.log)
            && (s.result.errors == Documented(chats, s.log) <==>
                forall c | c in s.result.errors :: !s.result.errors[c].BlockedByUser?)
    ensures (forall j, k | 0 <= j < k < |chats| :: chats[j] != chats[k]) ==>
              var s := run[i];
              && (s.result.errors == Documented(chats, s.log) <==> s.result.blocked == [])
              && (s.result.errors == Documented(chats, s.log) <==>
                  forall j | 0 <= j < |s.log| :: s.log[j].err != Some(BlockedByUser))
  {
    RunKeepsInv(chats, run, i);
    hide Run, Tally, Documented, BlockedIn;
    var log := run[i].log;
    BlockedAreListed(chats, log);
    ErrorsMatchExactly(chats, log);
    if forall j, k | 0 <= j < k < |chats| :: chats[j] != chats[k] {
      NoneBlockedExactly(chats, log);
      NoneInLogExactly(chats, log);
    }
  }

  lemma ErrorsMatchExactly(chats: seq<ChatID>, log: seq<Resolution>)
    requires forall i | 0 <= i < |log| :: log[i].job < |chats|
    ensures var errors := Tally(chats, log).errors;
            errors == Documented(chats, log) <==> forall c | c in errors :: !errors[c].BlockedByUser?
  {
    ErrorsAgainstComment(chats, log);
    hide Tally, Documented;
    var errors, documented := Tally(chats, log).errors, Documented(chats, log);
    if forall c | c in errors :: !errors[c].BlockedByUser? {
      assert errors.Keys == documented.Keys;
    }
  }

  lemma NoneInLogExactly(chats: seq<ChatID>, log: seq<Resolution>)
    requires forall i | 0 <= i < |log| :: log[i].job < |chats|
    ensures BlockedIn(chats, log) == [] <==> forall j | 0 <= j < |log| :: log[j].err != Some(BlockedByUser)
  {
    BlockedAreListed(chats, log);
    var blocked := BlockedIn(chats, log);
    if blocked != [] {
      assert blocked[0] in blocked;
    }
  }

  lemma NoneBlockedExactly(chats: seq<ChatID>, log: seq<Resolution>)
    requires forall i | 0 <= i < |log| :: log[i].job < |chats|
    requires forall i, k | 0 <= i < k < |log| :: log[i].job != log[k].job
    requires forall j, k | 0 <= j < k < |chats| :: chats[j] != chats[k]
    ensures var errors := Tally(chats, log).errors;
            BlockedIn(chats, log) == [] <==> forall c | c in errors :: !errors[c].BlockedByUser?
  {
    var errors, blocked := Tally(chats, log).errors, BlockedIn(chats, log);
    BlockedAreListed(chats, log);
    TallyCounts(chats, log);
    if blocked != [] {
      assert blocked[0] in blocked;
      var j :| 0 <= j < |log| && log[j].err == Some(BlockedByUser) && chats[log[j].job] == blocked[0];
      ErrorIsOwn(chats, log, j);
    } else {
      forall c | c in errors ensures !errors[c].BlockedByUser? {
        var j :| 0 <= j < |log| && log[j].err.Some? && chats[log[j].job] == c;
        ErrorIsOwn(chats, log, j);
        assert log[j].err == Some(BlockedByUser) ==> c in blocked;
      }
    }
  }

  /** One chat that has blocked the bot: Errors holds it, and its comment says it does not. */
  lemma BlockedChatIsInErrors(c: ChatID)
    ensures var log := [Resolution(0, Some(BlockedByUser))];
            Tally([c], log).errors == map[c := BlockedByUser] && Documented([c], log) == map[]
  {
    var log := [Resolution(0, Some(BlockedByUser))];
    assert log[..0] == [];
  }
}
