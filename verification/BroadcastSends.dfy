/**
 Which chats of a broadcast had send called (broadcast.go): every chat that is counted as sent, and every chat of a
 broadcast that is not canceled. A chat whose first wait the cancellation ended is counted as failed although send was
 never called for it.
 */
module BroadcastSends {
  import opened Options
  import opened Broadcast

  // --------------------------------------------------------------------------
  // No chat is resolved without a send, unless the cancellation ended its wait

  predicate Explained(s: State, job: nat, err: SendResult) {
    SendsOf(s, job) == 0 ==> err == Some(Canceled) && s.canceled
  }

  /** A worker that retries has sent once, and one that resolves has sent or was canceled. */
  predicate PhaseOk(s: State, p: Phase) {
    match p
    case Pausing(job) => SendsOf(s, job) >= 1
    case Repacing(job) => SendsOf(s, job) >= 1
    case Resending(job) => SendsOf(s, job) >= 1
    case Resolving(job, err) => Explained(s, job, err)
    case _ => true
  }

  ghost predicate CalledOk(s: State) {
    && (forall w | w in s.workers :: PhaseOk(s, s.workers[w]))
    && forall j | 0 <= j < |s.log| :: Explained(s, s.log[j].job, s.log[j].err)
  }

  /** Calls and the cancellation are never taken back. */
  lemma {:induction false} NothingTakenBack(chats: seq<ChatID>, s: State, s': State)
    requires Next(chats, s, s')
    ensures forall job :: SendsOf(s, job) <= SendsOf(s', job)
    ensures s.canceled ==> s'.canceled
  {
    hide Resolved, Report;
  }

  lemma {:induction false} OthersStayOk(s: State, p: Phase, s': State)
    requires PhaseOk(s, p) && (s.canceled ==> s'.canceled) && forall job :: SendsOf(s, job) <= SendsOf(s', job)
    ensures PhaseOk(s', p)
  {
  }

  lemma {:induction false} StepKeepsCalled(chats: seq<ChatID>, s: State, s': State, w: nat)
    requires CalledOk(s) && WorkerSteps(chats, s, s', w)
    requires (s.canceled ==> s'.canceled) && forall job :: SendsOf(s, job) <= SendsOf(s', job)
    ensures CalledOk(s')
  {
    hide Resolved, Report;
    WorkerMoves(chats, s, s', w);
    assert PhaseOk(s', s'.workers[w]) by {
      WorkerStaysOk(chats, s, s', w);
    }
    hide SendsOf, WorkerSteps;
    forall x | x in s'.workers && x != w ensures PhaseOk(s', s'.workers[x]) {
      OthersStayOk(s, s.workers[x], s');
    }
    assert s.workers[w].Resolving? ==> Explained(s, s.workers[w].job, s.workers[w].err);
  }

  lemma {:induction false} WorkerStaysOk(chats: seq<ChatID>, s: State, s': State, w: nat)
    requires WorkerSteps(chats, s, s', w) && w in s.workers && w in s'.workers && PhaseOk(s, s.workers[w])
    ensures PhaseOk(s', s'.workers[w])
  {
    hide Resolved, Report;
  }

  /** A worker's step leaves the other workers alone and logs no more than its own resolution. */
  lemma {:induction false} WorkerMoves(chats: seq<ChatID>, s: State, s': State, w: nat)
    requires WorkerSteps(chats, s, s', w)
    ensures w in s.workers && s'.workers.Keys == s.workers.Keys
    ensures forall x | x in s'.workers && x != w :: s'.workers[x] == s.workers[x]
    ensures s'.log == s.log
            || (s.workers[w].Resolving? && s'.log == s.log + [Resolution(s.workers[w].job, s.workers[w].err)])
  {
    hide Resolved, Report, SendsOf;
  }

  lemma {:induction false} NextKeepsCalled(chats: seq<ChatID>, s: State, s': State)
    requires CalledOk(s) && Next(chats, s, s')
    ensures CalledOk(s')
  {
    NothingTakenBack(chats, s, s');
    hide SendsOf, WorkerSteps;
    if Closes(chats, s, s') || Cancels(s, s') {
      forall x | x in s'.workers ensures PhaseOk(s', s'.workers[x]) {
        OthersStayOk(s, s.workers[x], s');
      }
    } else {
      var w :| WorkerSteps(chats, s, s', w);
      StepKeepsCalled(chats, s, s', w);
    }
  }

  lemma {:induction false} RunKeepsCalled(chats: seq<ChatID>, run: seq<State>, i: nat)
    requires Run(chats, run) && i < |run|
    ensures CalledOk(run[i])
  {
    if i > 0 {
      hide CalledOk, Next;
      RunKeepsCalled(chats, run, i - 1);
      assert Next(chats, run[i - 1], run[i - 1 + 1]);
      NextKeepsCalled(chats, run[i - 1], run[i]);
    }
  }

  /**
   In every state of every run: a resolved chat for which send was never called failed with the context's error, in a
   canceled broadcast. So every chat counted as sent had a send, and so had every chat of an uncanceled broadcast.
   */
  lemma {:induction false} ResolvedChatsWereSent(chats: seq<ChatID>, run: seq<State>, i: nat, j: nat)
    requires Run(chats, run) && i < |run| && j < |run[i].log|
    ensures var s, r := run[i], run[i].log[j];
            && (SendsOf(s, r.job) == 0 ==> r.err == Some(Canceled) && s.canceled)
            && (r.err.None? || !s.canceled ==> SendsOf(s, r.job) >= 1)
  {
    RunKeepsCalled(chats, run, i);
    assert Explained(run[i], run[i].log[j].job, run[i].log[j].err);
  }

  // --------------------------------------------------------------------------
  // Where a resolution comes from

  /** The cancellation ends the first wait of a chat. */
  ghost predicate GivesUp(s: State, s': State, job: nat) {
    exists w :: Paces(s, s', w) && s.workers[w] == Pacing(job) && s'.workers[w] == Resolving(job, Some(Canceled))
  }

  ghost predicate GivesUpAt(run: seq<State>, i: nat, job: nat)
    requires 0 < i < |run|
  {
    GivesUp(run[i - 1], run[i], job)
  }

  /** Such a step is among the first k of the run. */
  ghost predicate GaveUp(run: seq<State>, k: nat, job: nat)
    requires k < |run|
  {
    exists i :: 0 < i <= k && GivesUpAt(run, i, job)
  }

  /** A chat gets its outcome: what the send function answers, or the context's error after a wait. */
  ghost predicate Decides(s: State, s': State, job: nat, err: SendResult) {
    exists w :: w in s.workers && w in s'.workers && s'.workers[w] == Resolving(job, err) && DecidesAt(s, s', w, err)
  }

  ghost predicate DecidesAt(s: State, s': State, w: nat, err: SendResult) {
    Sends(s, s', w, err) || (Paces(s, s', w) && s.canceled && err == Some(Canceled))
  }

  ghost predicate DecidesIn(run: seq<State>, i: nat, job: nat, err: SendResult)
    requires 0 < i < |run|
  {
    Decides(run[i - 1], run[i], job, err)
  }

  ghost predicate Decided(run: seq<State>, k: nat, job: nat, err: SendResult)
    requires k < |run|
  {
    exists i :: 0 < i <= k && DecidesIn(run, i, job, err)
  }

  ghost predicate IsResolving(s: State, job: nat, err: SendResult) {
    exists w :: w in s.workers && s.workers[w] == Resolving(job, err)
  }

  predicate InLog(s: State, job: nat, err: SendResult) {
    Resolution(job, err) in s.log
  }

  lemma {:induction false} WorkerDecides(chats: seq<ChatID>, s: State, s': State, w: nat, err: SendResult)
    requires WorkerSteps(chats, s, s', w) && w in s.workers && w in s'.workers
    requires s'.workers[w].Resolving? && s'.workers[w].err == err
    ensures DecidesAt(s, s', w, err)
  {
    hide Resolved, Report, SendsOf;
  }

  lemma {:induction false} StepDecides(chats: seq<ChatID>, s: State, s': State, job: nat, err: SendResult)
    requires Next(chats, s, s') && (IsResolving(s', job, err) || InLog(s', job, err))
    ensures IsResolving(s, job, err) || InLog(s, job, err) || Decides(s, s', job, err)
  {
    if !Closes(chats, s, s') && !Cancels(s, s') {
      var w :| WorkerSteps(chats, s, s', w);
      WorkerMoves(chats, s, s', w);
      if s'.workers[w] == Resolving(job, err) {
        WorkerDecides(chats, s, s', w, err);
      }
      hide WorkerSteps, DecidesAt;
      if IsResolving(s', job, err) {
        var x :| x in s'.workers && s'.workers[x] == Resolving(job, err);
        assert x == w || s.workers[x] == Resolving(job, err);
      } else if !InLog(s, job, err) {
        assert s.workers[w] == Resolving(job, err);
      }
    }
  }

  /** Every outcome counted in the result is one that its chat got. */
  lemma {:induction false} OutcomesAreDecided(chats: seq<ChatID>, run: seq<State>, k: nat, job: nat, err: SendResult)
    requires Run(chats, run) && k < |run| && (IsResolving(run[k], job, err) || InLog(run[k], job, err))
    ensures Decided(run, k, job, err)
  {
    if k > 0 {
      hide Next, Decides, IsResolving, InLog;
      assert Next(chats, run[k - 1], run[k - 1 + 1]);
      StepDecides(chats, run[k - 1], run[k], job, err);
      assert DecidesIn(run, k, job, err) <==> Decides(run[k - 1], run[k], job, err);
      if IsResolving(run[k - 1], job, err) || InLog(run[k - 1], job, err) {
        OutcomesAreDecided(chats, run, k - 1, job, err);
      }
    }
  }

  // --------------------------------------------------------------------------
  // Exactly which resolved chats were never sent

  ghost predicate Settled(s: State, job: nat) {
    (exists err :: IsResolving(s, job, err)) || exists err :: InLog(s, job, err)
  }

  ghost predicate NeverSent(s: State, job: nat) {
    SendsOf(s, job) == 0 && Settled(s, job)
  }

  /** A worker's step that neither starts nor ends a resolution of a chat changes nothing about whether it is settled. */
  lemma {:induction false} SettledElsewhere(s: State, s': State, w: nat, job: nat)
    requires w in s.workers && s'.workers.Keys == s.workers.Keys && s'.log == s.log
    requires forall x | x in s.workers && x != w :: s'.workers[x] == s.workers[x]
    requires !(s.workers[w].Resolving? && s.workers[w].job == job)
    requires !(s'.workers[w].Resolving? && s'.workers[w].job == job)
    ensures Settled(s', job) <==> Settled(s, job)
    ensures !GivesUp(s, s', job)
  {
    forall err ensures IsResolving(s', job, err) <==> IsResolving(s, job, err) {
      if x :| x in s.workers && s.workers[x] == Resolving(job, err) {
        assert s'.workers[x] == Resolving(job, err);
      }
      if x :| x in s'.workers && s'.workers[x] == Resolving(job, err) {
        assert s.workers[x] == Resolving(job, err);
      }
    }
    assert forall err :: InLog(s', job, err) <==> InLog(s, job, err);
  }

  /** A chat that a worker is sending to is not settled. */
  lemma {:induction false} SendingIsUnsettled(chats: seq<ChatID>, s: State, w: nat)
    requires Inv(chats, s) && w in s.workers && s.workers[w].Busy() && !s.workers[w].Resolving?
    ensures !Settled(s, s.workers[w].job)
  {
    var job := s.workers[w].job;
    assert forall x | x in s.workers && s.workers[x].Resolving? :: s.workers[x].job != job by {
      assert forall x | x in s.workers && s.workers[x].Resolving? :: s.workers[x].Busy() && x != w;
    }
    assert forall j | 0 <= j < |s.log| :: s.log[j].job != job;
    hide Inv;
  }

  lemma {:induction false} PaceNeverSent(chats: seq<ChatID>, s: State, s': State, w: nat, job: nat)
    requires Inv(chats, s) && CalledOk(s) && Paces(s, s', w)
    ensures NeverSent(s', job) <==> NeverSent(s, job) || GivesUp(s, s', job)
  {
    var p, p' := s.workers[w], s'.workers[w];
    if p'.Resolving? && p'.job == job {
      assert IsResolving(s', job, Some(Canceled));
      if p.Repacing? {
        assert PhaseOk(s, p);
        assert !GivesUp(s, s', job);
      } else {
        assert SendsOf(s, job) == 0;
        assert GivesUp(s, s', job);
      }
    } else {
      SettledElsewhere(s, s', w, job);
    }
  }

  lemma {:induction false} SendNeverSent(chats: seq<ChatID>, s: State, s': State, w: nat, err: SendResult, job: nat)
    requires Inv(chats, s) && Sends(s, s', w, err)
    ensures NeverSent(s', job) <==> NeverSent(s, job) || GivesUp(s, s', job)
  {
    if job == s.workers[w].job {
      SendingIsUnsettled(chats, s, w);
      assert SendsOf(s', job) >= 1;
      assert !GivesUp(s, s', job) by {
        assert s'.workers.Keys == s.workers.Keys;
        assert forall x | x in s.workers && x != w :: s'.workers[x] == s.workers[x];
      }
    } else {
      SettledElsewhere(s, s', w, job);
    }
  }

  lemma {:induction false} ResolveNeverSent(chats: seq<ChatID>, s: State, s': State, w: nat, job: nat)
    requires Resolves(chats, s, s', w)
    ensures NeverSent(s', job) <==> NeverSent(s, job) || GivesUp(s, s', job)
  {
    var r := Resolution(s.workers[w].job, s.workers[w].err);
    assert s'.log == s.log + [r];
    assert IsResolving(s, r.job, r.err) && InLog(s', r.job, r.err);
    forall err ensures InLog(s', job, err) <==> InLog(s, job, err) || r == Resolution(job, err) {
    }
    forall err | Resolution(job, err) != r ensures IsResolving(s', job, err) <==> IsResolving(s, job, err) {
      if x :| x in s.workers && s.workers[x] == Resolving(job, err) {
        assert s'.workers[x] == Resolving(job, err);
      }
      if x :| x in s'.workers && s'.workers[x] == Resolving(job, err) {
        assert s.workers[x] == Resolving(job, err);
      }
    }
    assert forall x | x in s'.workers && s'.workers[x].Resolving? :: s.workers[x] == s'.workers[x];
    hide IsResolving, InLog;
  }

  /** The feeder, and a worker that takes a chat, exits or pauses. */
  ghost predicate IsQuiet(chats: seq<ChatID>, s: State, s': State) {
    || Closes(chats, s, s')
    || Cancels(s, s')
    || exists w :: Takes(chats, s, s', w) || Exits(s, s', w) || Pauses(s, s', w)
  }

  lemma {:induction false} QuietNeverSent(chats: seq<ChatID>, s: State, s': State, job: nat)
    requires IsQuiet(chats, s, s')
    ensures NeverSent(s', job) <==> NeverSent(s, job)
    ensures !GivesUp(s, s', job)
  {
    assert s'.sends == s.sends && s'.log == s.log;
    assert forall x | x in s.workers && s.workers[x].Resolving? :: x in s'.workers && s'.workers[x] == s.workers[x];
    assert forall x | x in s'.workers && s'.workers[x].Resolving? :: x in s.workers && s'.workers[x] == s.workers[x];
    hide IsQuiet;
    assert forall err :: IsResolving(s', job, err) <==> IsResolving(s, job, err);
    assert forall err :: InLog(s', job, err) <==> InLog(s, job, err);
  }

  lemma {:induction false} NextNeverSent(chats: seq<ChatID>, s: State, s': State, job: nat)
    requires Inv(chats, s) && CalledOk(s) && Next(chats, s, s')
    ensures NeverSent(s', job) <==> NeverSent(s, job) || GivesUp(s, s', job)
  {
    hide Inv, CalledOk, NeverSent, GivesUp, Closes, Cancels, Takes, Exits, Pauses, Paces, Resolves, Sends;
    if IsQuiet(chats, s, s') {
      QuietNeverSent(chats, s, s', job);
    } else {
      var w :| WorkerSteps(chats, s, s', w);
      if Paces(s, s', w) {
        PaceNeverSent(chats, s, s', w, job);
      } else if Resolves(chats, s, s', w) {
        ResolveNeverSent(chats, s, s', w, job);
      } else {
        var err :| Sends(s, s', w, err);
        SendNeverSent(chats, s, s', w, err, job);
      }
    }
  }

  /** In every state of every run, a settled chat was never sent exactly when the cancellation ended its first wait. */
  lemma {:induction false} NeverSentExactly(chats: seq<ChatID>, run: seq<State>, k: nat, job: nat)
    requires Run(chats, run) && k < |run|
    ensures NeverSent(run[k], job) <==> GaveUp(run, k, job)
  {
    if k > 0 {
      RunKeepsInv(chats, run, k - 1);
      RunKeepsCalled(chats, run, k - 1);
      hide Next, NeverSent, GivesUp, Inv, CalledOk;
      assert Next(chats, run[k - 1], run[k - 1 + 1]);
      NextNeverSent(chats, run[k - 1], run[k], job);
      assert GivesUpAt(run, k, job) <==> GivesUp(run[k - 1], run[k], job);
      NeverSentExactly(chats, run, k - 1, job);
    }
  }

  // --------------------------------------------------------------------------
  // When Broadcast returns

  predicate IsResolved(s: State, job: nat) {
    exists j :: 0 <= j < |s.log| && s.log[j].job == job
  }

  ghost predicate IsBusyWith(s: State, w: nat, job: nat) {
    w in s.workers && s.workers[w].Busy() && s.workers[w].job == job
  }

  /** No chat that was handed out is forgotten. */
  ghost predicate AccountedFor(s: State, job: nat) {
    IsResolved(s, job) || exists w :: IsBusyWith(s, w, job)
  }

  lemma {:induction false} StepKeepsAccount(chats: seq<ChatID>, s: State, s': State, job: nat)
    requires Next(chats, s, s') && job < s'.next && (job < s.next ==> AccountedFor(s, job))
    ensures AccountedFor(s', job)
  {
    if Closes(chats, s, s') || Cancels(s, s') {
      if w :| IsBusyWith(s, w, job) {
        assert IsBusyWith(s', w, job);
      }
    } else {
      var w :| WorkerSteps(chats, s, s', w);
      WorkerKeepsAccount(chats, s, s', w, job);
      hide WorkerSteps;
      if x :| IsBusyWith(s, x, job) {
        if x != w {
          assert IsBusyWith(s', x, job);
        }
      }
    }
  }

  /** A worker keeps its chat until it resolves it, and gets a new one only with the feeder's next. */
  lemma {:induction false} WorkerKeepsAccount(chats: seq<ChatID>, s: State, s': State, w: nat, job: nat)
    requires WorkerSteps(chats, s, s', w) && job < s'.next
    ensures job >= s.next || IsBusyWith(s, w, job) ==> IsBusyWith(s', w, job) || IsResolved(s', job)
    ensures IsResolved(s, job) ==> IsResolved(s', job)
    ensures forall x | x != w && IsBusyWith(s, x, job) :: IsBusyWith(s', x, job)
  {
    hide Resolved, Report;
    WorkerMoves(chats, s, s', w);
    if IsResolved(s, job) {
      var j :| 0 <= j < |s.log| && s.log[j].job == job;
      assert s'.log[j].job == job;
    }
    if Resolves(chats, s, s', w) {
      assert s'.log[|s.log|].job == s.workers[w].job;
    } else {
      WorkerKeepsChat(chats, s, s', w);
    }
    hide WorkerSteps, Resolves;
  }

  lemma {:induction false} WorkerKeepsChat(chats: seq<ChatID>, s: State, s': State, w: nat)
    requires WorkerSteps(chats, s, s', w) && !Resolves(chats, s, s', w) && w in s.workers && w in s'.workers
    ensures s'.next == if s.workers[w].Idle? && !s.closed then s.next + 1 else s.next
    ensures s'.workers[w].Busy() <==> s.workers[w].Busy() || s'.next > s.next
    ensures s'.workers[w].Busy() ==> s'.workers[w].job == if s'.next > s.next then s.next else s.workers[w].job
  {
    hide Resolved, Report, SendsOf;
  }

  lemma {:induction false} EveryChatIsAccountedFor(chats: seq<ChatID>, run: seq<State>, i: nat, job: nat)
    requires Run(chats, run) && i < |run| && job < run[i].next
    ensures AccountedFor(run[i], job)
  {
    if i > 0 {
      hide Next, AccountedFor;
      assert Next(chats, run[i - 1], run[i - 1 + 1]);
      if job < run[i - 1].next {
        EveryChatIsAccountedFor(chats, run, i - 1, job);
      }
      StepKeepsAccount(chats, run[i - 1], run[i], job);
    }
  }

  /**
   When Broadcast returns, canceled or not, it has waited for every chat that it handed out: those chats are the
   resolved ones. A resolved chat was never sent exactly when the cancellation ended its first wait.
   */
  lemma {:induction false} ReturnedExactly(chats: seq<ChatID>, run: seq<State>, k: nat)
    requires Run(chats, run) && k < |run| && Returned(run[k])
    ensures var s := run[k];
            && s.result.sent + s.result.failed == s.next
            && (forall job: nat :: IsResolved(s, job) <==> job < s.next)
            && (forall job: nat | job < s.next :: SendsOf(s, job) == 0 <==> GaveUp(run, k, job))
  {
    var s := run[k];
    EveryChatOnce(chats, run, k);
    RunKeepsInv(chats, run, k);
    assert BusyWorkers(s) == {};
    hide GaveUp, Run;
    forall job: nat ensures IsResolved(s, job) <==> job < s.next {
      if job < s.next {
        EveryChatIsAccountedFor(chats, run, k, job);
      }
    }
    forall job: nat | job < s.next ensures SendsOf(s, job) == 0 <==> GaveUp(run, k, job) {
      NeverSentExactly(chats, run, k, job);
      assert IsResolved(s, job);
      var j :| 0 <= j < |s.log| && s.log[j].job == job;
      assert InLog(s, job, s.log[j].err);
    }
  }

  /** What the comment says of a canceled broadcast: a chat that was never sent is not in the result. */
  ghost predicate UnsentAreAbsent(s: State) {
    forall job: nat :: SendsOf(s, job) == 0 ==> !IsResolved(s, job)
  }

  /** It is true exactly when the cancellation ended no chat's first wait. */
  lemma {:induction false} UnsentAreAbsentExactly(chats: seq<ChatID>, run: seq<State>, k: nat)
    requires Run(chats, run) && k < |run| && Returned(run[k])
    ensures UnsentAreAbsent(run[k]) <==> forall job :: !GaveUp(run, k, job)
  {
    var s := run[k];
    ReturnedExactly(chats, run, k);
    hide Run, Returned, IsResolved, SendsOf, GivesUp;
    forall job: nat ensures SendsOf(s, job) == 0 && IsResolved(s, job) <==> GaveUp(run, k, job) {
      if s.next <= job {
        NeverSentExactly(chats, run, k, job);
        UnhandedIsUnsettled(chats, run, k, job);
      }
    }
    if UnsentAreAbsent(s) {
      forall job ensures !GaveUp(run, k, job) {
        assert SendsOf(s, job) == 0 ==> !IsResolved(s, job);
      }
    }
  }

  lemma {:induction false} UnhandedIsUnsettled(chats: seq<ChatID>, run: seq<State>, k: nat, job: nat)
    requires Run(chats, run) && k < |run| && run[k].next <= job
    ensures !Settled(run[k], job)
  {
    RunKeepsInv(chats, run, k);
    var s := run[k];
    assert forall x | x in s.workers && s.workers[x].Resolving? :: s.workers[x].job < s.next by {
      assert forall x | x in s.workers && s.workers[x].Resolving? :: s.workers[x].Busy();
    }
    assert forall j | 0 <= j < |s.log| :: s.log[j].job < s.next;
  }

  /** One chat and one worker, canceled while the chat waits for its first token. */
  function CanceledRun(c: ChatID): (run: seq<State>)
    ensures |run| == 7
  {
    var s0 := State(0, false, false, map[0 := Idle], NOTHING, [], map[], []);
    var s1 := To(s0, 0, Pacing(0)).(next := 1);
    var s2 := s1.(canceled := true);
    var s3 := To(s2, 0, Resolving(0, Some(Canceled)));
    var result := Resolved(NOTHING, c, Some(Canceled));
    var s4 := To(s3, 0, Idle).(result := result, calls := [Report(result, 1)], log := [Resolution(0, Some(Canceled))]);
    var s5 := s4.(closed := true);
    [s0, s1, s2, s3, s4, s5, To(s5, 0, Exited)]
  }

  lemma CanceledRunSteps(c: ChatID)
    ensures var run := CanceledRun(c);
            && Takes([c], run[0], run[1], 0) && Cancels(run[1], run[2]) && Paces(run[2], run[3], 0)
            && Resolves([c], run[3], run[4], 0) && Closes([c], run[4], run[5]) && Exits(run[5], run[6], 0)
    ensures GivesUp(CanceledRun(c)[2], CanceledRun(c)[3], 0)
  {
    var run := CanceledRun(c);
    assert run[3].workers[0] == Resolving(0, Some(Canceled));
    hide Resolved, Report;
  }

  lemma CanceledRunEnds(c: ChatID)
    ensures Init(CanceledRun(c)[0]) && Returned(CanceledRun(c)[6]) && IsResolved(CanceledRun(c)[6], 0)
    ensures CanceledRun(c)[6].sends == map[] && CanceledRun(c)[6].result == Summary(0, 1, [], map[c := Canceled])
  {
    var s := CanceledRun(c)[6];
    assert s.log == [Resolution(0, Some(Canceled))];
    assert s.log[0].job == 0;
  }

  lemma TheseStepsAreARun(chats: seq<ChatID>, run: seq<State>)
    requires |run| == 7 && Init(run[0])
    requires Takes(chats, run[0], run[1], 0) && Cancels(run[1], run[2]) && Paces(run[2], run[3], 0)
    requires Resolves(chats, run[3], run[4], 0) && Closes(chats, run[4], run[5]) && Exits(run[5], run[6], 0)
    ensures Run(chats, run)
  {
    hide Init, Takes, Cancels, Paces, Resolves, Closes, Exits, Pauses, Sends;
    assert Next(chats, run[0], run[1]) by { assert WorkerSteps(chats, run[0], run[1], 0); }
    assert Next(chats, run[2], run[3]) by { assert WorkerSteps(chats, run[2], run[3], 0); }
    assert Next(chats, run[3], run[4]) by { assert WorkerSteps(chats, run[3], run[4], 0); }
    assert Next(chats, run[5], run[6]) by { assert WorkerSteps(chats, run[5], run[6], 0); }
    assert Next(chats, run[1], run[2]) && Next(chats, run[4], run[5]);
    hide Next;
    forall i | 0 <= i < 6 ensures Next(chats, run[i], run[i + 1]) {
      assert i == 0 || i == 1 || i == 2 || i == 3 || i == 4 || i == 5;
    }
  }

  /** The result of that run counts the chat as failed, and send was never called. */
  lemma CanceledChatIsCounted(c: ChatID)
    ensures var run := CanceledRun(c);
            && Run([c], run) && Returned(run[6]) && GaveUp(run, 6, 0)
            && run[6].sends == map[] && run[6].result == Summary(0, 1, [], map[c := Canceled])
    ensures !UnsentAreAbsent(CanceledRun(c)[6])
  {
    hide CanceledRun, Run, Returned, Init, IsResolved;
    CanceledRunSteps(c);
    CanceledRunEnds(c);
    hide Takes, Cancels, Paces, Resolves, Closes, Exits;
    TheseStepsAreARun([c], CanceledRun(c));
    assert GivesUpAt(CanceledRun(c), 3, 0);
    hide GivesUp;
  }
}
