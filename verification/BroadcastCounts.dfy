/**
 What a broadcast's numbers count (broadcast.go), and when a chat is sent to a second time.
 */
module BroadcastCounts {
  import opened Options
  import opened Broadcast
  import opened BroadcastSends

  // --------------------------------------------------------------------------
  // Sent, Failed and Blocked

  function Succeeded(log: seq<Resolution>): set<nat> {
    set j: nat | j < |log| && log[j].err == None
  }

  function Failed(log: seq<Resolution>): set<nat> {
    set j: nat | j < |log| && log[j].err != None
  }

  function Blocked(log: seq<Resolution>): set<nat> {
    set j: nat | j < |log| && log[j].err == Some(BlockedByUser)
  }

  lemma OneMore(log: seq<Resolution>)
    requires log != []
    ensures var n := |log| - 1;
            && Succeeded(log) == Succeeded(log[..n]) + (if log[n].err == None then {n} else {})
            && Failed(log) == Failed(log[..n]) + (if log[n].err != None then {n} else {})
            && Blocked(log) == Blocked(log[..n]) + (if log[n].err == Some(BlockedByUser) then {n} else {})
            && n !in Succeeded(log[..n]) && n !in Failed(log[..n]) && n !in Blocked(log[..n])
  {
  }

  lemma {:induction false} TallyIsCounted(chats: seq<ChatID>, log: seq<Resolution>)
    requires forall j | 0 <= j < |log| :: log[j].job < |chats|
    ensures var r := Tally(chats, log);
            r.sent == |Succeeded(log)| && r.failed == |Failed(log)| && |r.blocked| == |Blocked(log)|
  {
    if log != [] {
      TallyIsCounted(chats, log[..|log| - 1]);
      OneMore(log);
    }
  }

  /**
   In every state of every run Sent is the number of chats resolved without an error and Failed that of the chats
   resolved with one; and the k-th progress callback reported these numbers for the first k resolutions.
   */
  lemma ResultIsCounted(chats: seq<ChatID>, run: seq<State>, i: nat)
    requires Run(chats, run) && i < |run|
    ensures var s := run[i];
            && s.result.sent == |Succeeded(s.log)| && s.result.failed == |Failed(s.log)|
            && |s.result.blocked| == |Blocked(s.log)| && |s.calls| == |s.log|
            && forall k | 0 <= k < |s.calls| ::
                 var done := s.log[..k + 1];
                 s.calls[k] == Progress(|chats|, |Succeeded(done)|, |Failed(done)|, |Blocked(done)|, |chats| - (k + 1))
  {
    RunKeepsInv(chats, run, i);
    var s := run[i];
    hide Run, Tally, Succeeded, Failed, Blocked;
    TallyIsCounted(chats, s.log);
    forall k | 0 <= k < |s.calls|
      ensures var done := s.log[..k + 1];
              s.calls[k] == Progress(|chats|, |Succeeded(done)|, |Failed(done)|, |Blocked(done)|, |chats| - (k + 1))
    {
      TallyIsCounted(chats, s.log[..k + 1]);
      TallyCounts(chats, s.log[..k + 1]);
    }
  }

  // --------------------------------------------------------------------------
  // The second send

  /** The first send for a chat is answered with a flood error. */
  ghost predicate Floods(s: State, s': State, job: nat) {
    exists w, wait :: Sends(s, s', w, Some(Flood(wait))) && s.workers[w] == Sending(job)
  }

  ghost predicate FloodsIn(run: seq<State>, i: nat, job: nat)
    requires 0 < i < |run|
  {
    Floods(run[i - 1], run[i], job)
  }

  /** That is so in one of the first k steps of the run. */
  ghost predicate Flooded(run: seq<State>, k: nat, job: nat)
    requires k < |run|
  {
    exists i :: 0 < i <= k && FloodsIn(run, i, job)
  }

  /** A chat with an outcome had a second send if the first one was answered with a flood, unless it was canceled. */
  predicate TwiceOk(s: State, job: nat, err: SendResult, flooded: bool) {
    if flooded then SendsOf(s, job) == 2 || (SendsOf(s, job) == 1 && err == Some(Canceled) && s.canceled)
    else SendsOf(s, job) <= 1
  }

  predicate FloodPhaseOk(s: State, p: Phase, flooded: bool) {
    match p
    case Pacing(_) => !flooded
    case Sending(_) => !flooded
    case Pausing(_) => flooded
    case Repacing(_) => flooded
    case Resending(_) => flooded
    case Resolving(job, err) => TwiceOk(s, job, err, flooded)
    case _ => true
  }

  ghost predicate FloodOk(s: State, job: nat, flooded: bool) {
    && (forall w | IsBusyWith(s, w, job) :: FloodPhaseOk(s, s.workers[w], flooded))
    && (forall j | 0 <= j < |s.log| && s.log[j].job == job :: TwiceOk(s, job, s.log[j].err, flooded))
    && (s.next <= job ==> !flooded)
  }

  predicate OthersKeep(s: State, s': State, w: nat) {
    && s'.workers.Keys == s.workers.Keys
    && forall x | x in s.workers && x != w :: s'.workers[x] == s.workers[x]
  }

  /** A step that is not about this chat, or only cancels or closes, changes nothing for it. */
  lemma {:induction false} OtherChatStays(s: State, s': State, w: nat, job: nat, flooded: bool)
    requires FloodOk(s, job, flooded) && OthersKeep(s, s', w) && s.next <= s'.next && (s.canceled ==> s'.canceled)
    requires SendsOf(s', job) == SendsOf(s, job)
    requires s'.log == s.log || exists r: Resolution :: r.job != job && s'.log == s.log + [r]
    requires IsBusyWith(s', w, job) ==> FloodPhaseOk(s', s'.workers[w], flooded)
    ensures FloodOk(s', job, flooded)
  {
    hide SendsOf;
    forall x | IsBusyWith(s', x, job) ensures FloodPhaseOk(s', s'.workers[x], flooded) {
      if x != w {
        assert IsBusyWith(s, x, job);
        assert FloodPhaseOk(s, s.workers[x], flooded);
      }
    }
  }

  /** The worker's own chat is in no other place. */
  lemma {:induction false} OwnChatMoves(chats: seq<ChatID>, s: State, s': State, w: nat, job: nat, flooded: bool)
    requires Inv(chats, s) && IsBusyWith(s, w, job) && OthersKeep(s, s', w) && s.next <= s'.next
    requires IsBusyWith(s', w, job) ==> FloodPhaseOk(s', s'.workers[w], flooded)
    requires s'.log == s.log || exists err :: s'.log == s.log + [Resolution(job, err)] && TwiceOk(s', job, err, flooded)
    ensures FloodOk(s', job, flooded)
  {
    assert forall x | x != w :: !IsBusyWith(s, x, job);
    assert forall j | 0 <= j < |s.log| :: s.log[j].job != job;
    hide Inv, TwiceOk, FloodPhaseOk;
  }

  lemma {:induction false} FloodsOnlyHere(chats: seq<ChatID>, s: State, s': State, w: nat, job: nat)
    requires Inv(chats, s) && OthersKeep(s, s', w) && Floods(s, s', job)
    ensures w in s.workers && s.workers[w] == Sending(job) && s'.workers[w] == Pausing(job)
    ensures exists wait :: Sends(s, s', w, Some(Flood(wait)))
  {
    var x, wait :| Sends(s, s', x, Some(Flood(wait))) && s.workers[x] == Sending(job);
    assert s'.workers[x] == Pausing(job);
  }

  lemma {:induction false} WorkFloods(chats: seq<ChatID>, s: State, s': State, w: nat, job: nat, flooded: bool)
    requires Inv(chats, s) && CalledOk(s) && OthersKeep(s, s', w) && IsBusyWith(s, w, job)
    requires FloodPhaseOk(s, s.workers[w], flooded)
    requires Paces(s, s', w) || Pauses(s, s', w) || exists err :: Sends(s, s', w, err)
    ensures IsBusyWith(s', w, job) && s'.log == s.log && s'.next == s.next
    ensures FloodPhaseOk(s', s'.workers[w], flooded || Floods(s, s', job))
  {
    assert PhaseOk(s, s.workers[w]) && SendsOf(s, job) <= MaySend(s.workers[w]);
    if Floods(s, s', job) {
      FloodsOnlyHere(chats, s, s', w, job);
    }
    hide Inv, CalledOk, OthersKeep;
    if s.workers[w].Sending? && s'.workers[w].Pausing? {
      var err :| Sends(s, s', w, err);
      assert err == Some(Flood(err.value.retryAfter));
      assert Floods(s, s', job);
    }
  }

  lemma {:induction false} ResolveFloods(chats: seq<ChatID>, s: State, s': State, w: nat, job: nat, flooded: bool)
    requires Inv(chats, s) && OthersKeep(s, s', w) && Resolves(chats, s, s', w) && FloodOk(s, job, flooded)
    ensures FloodOk(s', job, flooded) && !Floods(s, s', job)
  {
    if Floods(s, s', job) {
      FloodsOnlyHere(chats, s, s', w, job);
    }
    hide Resolved, Report;
    var r := Resolution(s.workers[w].job, s.workers[w].err);
    assert s'.log == s.log + [r] && !IsBusyWith(s', w, job) && SendsOf(s', job) == SendsOf(s, job);
    if r.job == job {
      assert IsBusyWith(s, w, job) && FloodPhaseOk(s, s.workers[w], flooded);
      assert TwiceOk(s', job, r.err, flooded);
      hide FloodOk, Resolves, TwiceOk, FloodPhaseOk, Inv;
      OwnChatMoves(chats, s, s', w, job, flooded);
    } else {
      hide FloodOk, Resolves, TwiceOk, FloodPhaseOk, Inv;
      OtherChatStays(s, s', w, job, flooded);
    }
  }

  lemma {:induction false} ElsewhereMoves(chats: seq<ChatID>, s: State, s': State, w: nat, job: nat)
    requires !IsBusyWith(s, w, job)
    requires Takes(chats, s, s', w) || Exits(s, s', w) || Paces(s, s', w) || Pauses(s, s', w)
             || exists err :: Sends(s, s', w, err)
    ensures SendsOf(s', job) == SendsOf(s, job) && s'.log == s.log && s.next <= s'.next && s'.canceled == s.canceled
    ensures IsBusyWith(s', w, job) ==> job == s.next && s'.workers[w] == Pacing(job)
  {
  }

  /** A worker's step about another chat: it takes the next one, exits, or works on its own. */
  lemma {:induction false} ElsewhereFloods(chats: seq<ChatID>, s: State, s': State, w: nat, job: nat, flooded: bool)
    requires Inv(chats, s) && OthersKeep(s, s', w) && FloodOk(s, job, flooded) && !IsBusyWith(s, w, job)
    requires Takes(chats, s, s', w) || Exits(s, s', w) || Paces(s, s', w) || Pauses(s, s', w)
             || exists err :: Sends(s, s', w, err)
    ensures FloodOk(s', job, flooded) && !Floods(s, s', job)
  {
    if Floods(s, s', job) {
      FloodsOnlyHere(chats, s, s', w, job);
    }
    hide Takes, Exits, Paces, Pauses, Sends;
    ElsewhereMoves(chats, s, s', w, job);
    assert s.next <= job ==> !flooded;
    hide FloodOk, Inv, TwiceOk, SendsOf, Floods;
    OtherChatStays(s, s', w, job, flooded);
  }

  lemma {:induction false} WorkerKeepsFloods(chats: seq<ChatID>, s: State, s': State, w: nat, job: nat, flooded: bool)
    requires Inv(chats, s) && CalledOk(s) && FloodOk(s, job, flooded) && WorkerSteps(chats, s, s', w)
    ensures FloodOk(s', job, flooded || Floods(s, s', job))
  {
    assert OthersKeep(s, s', w) by {
      WorkerMoves(chats, s, s', w);
    }
    if Resolves(chats, s, s', w) {
      hide FloodOk, Resolves, Inv, CalledOk, Floods, OthersKeep;
      ResolveFloods(chats, s, s', w, job, flooded);
    } else if !IsBusyWith(s, w, job) {
      hide FloodOk, Inv, CalledOk, Floods, OthersKeep, Resolves;
      ElsewhereFloods(chats, s, s', w, job, flooded);
    } else {
      BusyWorks(chats, s, s', w, job);
      assert FloodPhaseOk(s, s.workers[w], flooded);
      hide WorkerSteps, FloodOk, Inv, CalledOk, Floods, OthersKeep, FloodPhaseOk;
      WorkFloods(chats, s, s', w, job, flooded);
      OwnChatMoves(chats, s, s', w, job, flooded || Floods(s, s', job));
    }
  }

  lemma {:induction false} BusyWorks(chats: seq<ChatID>, s: State, s': State, w: nat, job: nat)
    requires WorkerSteps(chats, s, s', w) && !Resolves(chats, s, s', w) && IsBusyWith(s, w, job)
    ensures Paces(s, s', w) || Pauses(s, s', w) || exists err :: Sends(s, s', w, err)
  {
    hide Paces, Pauses, Sends, Resolves;
  }

  lemma {:induction false} FloodsPauses(s: State, s': State, job: nat)
    ensures Floods(s, s', job) ==>
      exists w :: w in s.workers && w in s'.workers && s.workers[w] == Sending(job) && s'.workers[w] == Pausing(job)
  {
    if w, wait :| Sends(s, s', w, Some(Flood(wait))) && s.workers[w] == Sending(job) {
      assert s'.workers[w] == Pausing(job);
    }
  }

  lemma {:induction false} FeederKeepsFloods(chats: seq<ChatID>, s: State, s': State, job: nat, flooded: bool)
    requires FloodOk(s, job, flooded) && (Closes(chats, s, s') || Cancels(s, s'))
    ensures FloodOk(s', job, flooded) && !Floods(s, s', job)
  {
    FloodsPauses(s, s', job);
    forall w | IsBusyWith(s', w, job) ensures FloodPhaseOk(s', s'.workers[w], flooded) {
      assert IsBusyWith(s, w, job);
    }
  }

  lemma {:induction false} RunKeepsFloods(chats: seq<ChatID>, run: seq<State>, k: nat, job: nat)
    requires Run(chats, run) && k < |run|
    ensures FloodOk(run[k], job, Flooded(run, k, job))
  {
    if k > 0 {
      RunKeepsInv(chats, run, k - 1);
      RunKeepsCalled(chats, run, k - 1);
      RunKeepsFloods(chats, run, k - 1, job);
      var s, s', before := run[k - 1], run[k - 1 + 1], Flooded(run, k - 1, job);
      assert Next(chats, s, s');
      assert FloodsIn(run, k, job) <==> Floods(s, s', job);
      assert Flooded(run, k, job) <==> before || Floods(s, s', job);
      hide Run, FloodOk, Inv, CalledOk, Closes, Cancels, WorkerSteps, Floods, Flooded;
      if Closes(chats, s, s') || Cancels(s, s') {
        FeederKeepsFloods(chats, s, s', job, before);
      } else {
        var w :| WorkerSteps(chats, s, s', w);
        WorkerKeepsFloods(chats, s, s', w, job, before);
      }
    }
  }

  /**
   In every state of every run: send was called for a resolved chat a second time exactly if its first call was answered
   with a flood error, unless the cancellation ended the wait in between; without cancellation it was called once or
   twice accordingly.
   */
  lemma FloodedChatsAreSentAgain(chats: seq<ChatID>, run: seq<State>, i: nat, j: nat)
    requires Run(chats, run) && i < |run| && j < |run[i].log|
    ensures var s, r := run[i], run[i].log[j];
            && (!Flooded(run, i, r.job) ==> SendsOf(s, r.job) <= 1)
            && (Flooded(run, i, r.job) ==>
                  SendsOf(s, r.job) == 2 || (SendsOf(s, r.job) == 1 && r.err == Some(Canceled) && s.canceled))
            && (!s.canceled ==> SendsOf(s, r.job) == if Flooded(run, i, r.job) then 2 else 1)
  {
    RunKeepsFloods(chats, run, i, run[i].log[j].job);
    ResolvedChatsWereSent(chats, run, i, j);
    hide Run, Flooded, SendsOf;
  }

  // --------------------------------------------------------------------------
  // Broadcast comes to an end

  /** A worker that has not exited can move, or else the feeder can close the channel that it waits on. */
  lemma NeverStuck(chats: seq<ChatID>, run: seq<State>, i: nat, w: nat) returns (s': State)
    requires Run(chats, run) && i < |run| && w in run[i].workers && run[i].workers[w] != Exited
    ensures WorkerSteps(chats, run[i], s', w) || Closes(chats, run[i], s')
  {
    var s := run[i];
    RunKeepsInv(chats, run, i);
    match s.workers[w] {
      case Idle =>
        if s.closed {
          s' := To(s, w, Exited);
          assert Exits(s, s', w);
        } else if s.next < |chats| {
          s' := To(s, w, Pacing(s.next)).(next := s.next + 1);
          assert Takes(chats, s, s', w);
        } else {
          s' := s.(closed := true);
          assert Closes(chats, s, s');
        }
      case Pacing(job) =>
        s' := To(s, w, Sending(job));
        assert Paces(s, s', w);
      case Sending(job) =>
        s' := To(s, w, Resolving(job, None)).(sends := s.sends[job := SendsOf(s, job) + 1]);
        assert Sends(s, s', w, None);
      case Pausing(job) =>
        s' := To(s, w, Repacing(job));
        assert Pauses(s, s', w);
      case Repacing(job) =>
        s' := To(s, w, Resending(job));
        assert Paces(s, s', w);
      case Resending(job) =>
        s' := To(s, w, Resolving(job, None)).(sends := s.sends[job := SendsOf(s, job) + 1]);
        assert Sends(s, s', w, None);
      case Resolving(job, err) =>
        s' := ResolvingMoves(chats, s, w);
    }
  }

  lemma ResolvingMoves(chats: seq<ChatID>, s: State, w: nat) returns (s': State)
    requires Inv(chats, s) && w in s.workers && s.workers[w].Resolving?
    ensures WorkerSteps(chats, s, s', w)
  {
    var job, err := s.workers[w].job, s.workers[w].err;
    assert s.workers[w].Busy();
    var result := Resolved(s.result, chats[job], err);
    s' := To(s, w, Idle).(result := result, calls := s.calls + [Report(result, |chats|)],
                          log := s.log + [Resolution(job, err)]);
    hide Inv, Resolved, Report;
    assert Resolves(chats, s, s', w);
  }

  /** Once canceled, the feeder can close the channel at once, and any wait for the pacer can end with the context's error. */
  lemma CancellationCutsShort(chats: seq<ChatID>, s: State, w: nat)
    requires s.canceled
    ensures !s.closed ==> Closes(chats, s, s.(closed := true))
    ensures w in s.workers && (s.workers[w].Pacing? || s.workers[w].Repacing?) ==>
      Paces(s, To(s, w, Resolving(s.workers[w].job, Some(Canceled))), w)
  {
  }
}
