/**
 The per-key dispatch lock (keyed_mutex.go): the protocol as interleaved atomic steps of any number of threads,
 and the class whose methods are those steps.
 */
module KeyedMutex {
  import opened Conversations

  type Tid = nat

  /**
   Where a thread is: outside; inside Lock, waiting for its mutex; between Lock's return and Unlock's start; inside
   Unlock, done with the map but not yet with the mutex.
   */
  datatype Phase<L> =
    | Idle
    | Waiting(key: StorageKey, lock: L)
    | Holding(key: StorageKey, lock: L)
    | Releasing(lock: L)
  {
    /** Waits for or holds key. */
    predicate Uses(k: StorageKey) {
      (Waiting? || Holding?) && key == k
    }

    /** Owns its mutex. */
    predicate Owns() {
      Holding? || Releasing?
    }
  }

  datatype Counted = Counted(refs: int, locked: bool)

  /** The locks map, every mutex ever made, and the threads. Mutexes are identified by values of L. */
  datatype State<L(==)> = State(locks: map<StorageKey, L>, mutexes: map<L, Counted>, threads: map<Tid, Phase<L>>)

  // --------------------------------------------------------------------------
  // The atomic steps

  /** Lock's critical section: find or make the key's mutex, and count this thread. */
  predicate CanEnter<L>(s: State<L>, t: Tid, key: StorageKey, l: L) {
    && t in s.threads && s.threads[t] == Idle
    && (if key in s.locks then l == s.locks[key] && l in s.mutexes else l !in s.mutexes)
  }

  function Enter<L>(s: State<L>, t: Tid, key: StorageKey, l: L): State<L>
    requires CanEnter(s, t, key, l)
  {
    var m := if key in s.locks then s.mutexes[l] else Counted(0, false);
    State(s.locks[key := l], s.mutexes[l := Counted(m.refs + 1, m.locked)], s.threads[t := Waiting(key, l)])
  }

  /** Lock's wait for the mutex ends. */
  predicate CanObtain<L>(s: State<L>, t: Tid) {
    && t in s.threads && s.threads[t].Waiting?
    && s.threads[t].lock in s.mutexes && !s.mutexes[s.threads[t].lock].locked
  }

  function Obtain<L>(s: State<L>, t: Tid): State<L>
    requires CanObtain(s, t)
  {
    var l := s.threads[t].lock;
    s.(mutexes := s.mutexes[l := Counted(s.mutexes[l].refs, true)],
       threads := s.threads[t := Holding(s.threads[t].key, l)])
  }

  /** Unlock's critical section: look the key up again, discount this thread, delete an unused entry. */
  predicate CanDrop<L>(s: State<L>, t: Tid) {
    && t in s.threads && s.threads[t].Holding?
    && s.threads[t].key in s.locks && s.locks[s.threads[t].key] in s.mutexes
  }

  function Drop<L>(s: State<L>, t: Tid): State<L>
    requires CanDrop(s, t)
  {
    var key := s.threads[t].key;
    var l := s.locks[key];
    var refs := s.mutexes[l].refs - 1;
    State(if refs == 0 then s.locks - {key} else s.locks,
          s.mutexes[l := Counted(refs, s.mutexes[l].locked)],
          s.threads[t := Releasing(l)])
  }

  /** Unlock gives the mutex up. */
  predicate CanRelease<L>(s: State<L>, t: Tid) {
    && t in s.threads && s.threads[t].Releasing?
    && s.threads[t].lock in s.mutexes && s.mutexes[s.threads[t].lock].locked
  }

  function Release<L>(s: State<L>, t: Tid): State<L>
    requires CanRelease(s, t)
  {
    var l := s.threads[t].lock;
    s.(mutexes := s.mutexes[l := Counted(s.mutexes[l].refs, false)], threads := s.threads[t := Idle])
  }

  /** One step of any thread. A thread that enters picks its key, and a fresh mutex if the key has none. */
  ghost predicate Next<L>(s: State<L>, s': State<L>) {
    || (exists t, key | t in s.threads && key in s'.locks ::
          CanEnter(s, t, key, s'.locks[key]) && s' == Enter(s, t, key, s'.locks[key]))
    || (exists t | t in s.threads :: CanObtain(s, t) && s' == Obtain(s, t))
    || (exists t | t in s.threads :: CanDrop(s, t) && s' == Drop(s, t))
    || (exists t | t in s.threads :: CanRelease(s, t) && s' == Release(s, t))
  }

  ghost predicate Init<L>(s: State<L>) {
    s.locks == map[] && s.mutexes == map[] && forall t | t in s.threads :: s.threads[t] == Idle
  }

  // --------------------------------------------------------------------------
  // What every interleaving keeps

  function Users<L>(s: State<L>, key: StorageKey): set<Tid> {
    set t | t in s.threads && s.threads[t].Uses(key)
  }

  ghost predicate LocksOk<L>(s: State<L>) {
    && (forall k | k in s.locks :: s.locks[k] in s.mutexes)
    && (forall j, k | j in s.locks && k in s.locks && s.locks[j] == s.locks[k] :: j == k)
  }

  /** A thread that waits for or holds a key has the mutex that the map has for it. */
  ghost predicate ThreadsOk<L>(s: State<L>) {
    forall t | t in s.threads ::
      && (forall k | s.threads[t].Uses(k) :: k in s.locks && s.locks[k] == s.threads[t].lock)
      && (!s.threads[t].Idle? ==> s.threads[t].lock in s.mutexes)
  }

  ghost predicate RefsOk<L>(s: State<L>) {
    forall k | k in s.locks && s.locks[k] in s.mutexes ::
      s.mutexes[s.locks[k]].refs == |Users(s, k)| && Users(s, k) != {}
  }

  /** A mutex is locked exactly when a thread owns it, and then only one does. */
  ghost predicate OwnersOk<L>(s: State<L>) {
    && (forall t | t in s.threads && s.threads[t].Owns() ::
          s.threads[t].lock in s.mutexes && s.mutexes[s.threads[t].lock].locked)
    && (forall l | l in s.mutexes && s.mutexes[l].locked ::
          exists t :: t in s.threads && s.threads[t].Owns() && s.threads[t].lock == l)
    && (forall t, t' | t in s.threads && t' in s.threads && s.threads[t].Owns() && s.threads[t'].Owns() ::
          s.threads[t].lock == s.threads[t'].lock ==> t == t')
  }

  ghost predicate Inv<L>(s: State<L>) {
    LocksOk(s) && ThreadsOk(s) && RefsOk(s) && OwnersOk(s)
  }

  lemma UsersEnter<L>(s: State<L>, t: Tid, key: StorageKey, l: L)
    requires CanEnter(s, t, key, l)
    ensures forall k :: Users(Enter(s, t, key, l), k) == if k == key then Users(s, k) + {t} else Users(s, k)
    ensures t !in Users(s, key)
  {
  }

  lemma UsersObtain<L>(s: State<L>, t: Tid)
    requires CanObtain(s, t)
    ensures forall k :: Users(Obtain(s, t), k) == Users(s, k)
  {
  }

  lemma UsersDrop<L>(s: State<L>, t: Tid)
    requires CanDrop(s, t)
    ensures forall k :: Users(Drop(s, t), k) == if k == s.threads[t].key then Users(s, k) - {t} else Users(s, k)
    ensures t in Users(s, s.threads[t].key)
  {
  }

  lemma UsersRelease<L>(s: State<L>, t: Tid)
    requires CanRelease(s, t)
    ensures forall k :: Users(Release(s, t), k) == Users(s, k)
  {
  }

  lemma UnusedKey<L>(s: State<L>, key: StorageKey)
    requires ThreadsOk(s) && key !in s.locks
    ensures Users(s, key) == {}
  {
  }

  lemma EnterKeepsRefs<L>(s: State<L>, t: Tid, key: StorageKey, l: L)
    requires Inv(s) && CanEnter(s, t, key, l)
    ensures RefsOk(Enter(s, t, key, l))
  {
    var s' := Enter(s, t, key, l);
    UsersEnter(s, t, key, l);
    if key !in s.locks {
      UnusedKey(s, key);
      assert Users(s', key) == {t};
    }
    hide Users, ThreadsOk, OwnersOk;
    forall k | k in s'.locks && s'.locks[k] in s'.mutexes
      ensures s'.mutexes[s'.locks[k]].refs == |Users(s', k)| && Users(s', k) != {}
    {
      if k != key {
        assert k in s.locks && s.locks[k] in s.mutexes && s.locks[k] != l;
      }
    }
  }

  lemma EnterKeepsInv<L>(s: State<L>, t: Tid, key: StorageKey, l: L)
    requires Inv(s) && CanEnter(s, t, key, l)
    ensures Inv(Enter(s, t, key, l))
  {
    hide Users, RefsOk;
    EnterKeepsRefs(s, t, key, l);
    assert OwnersOk(Enter(s, t, key, l)) by {
      OwnersKept(s, Enter(s, t, key, l), t);
    }
  }

  /** A step that changes neither the locked flags nor the ownership of any thread keeps the ownership invariant. */
  lemma OwnersKept<L>(s: State<L>, s': State<L>, t: Tid)
    requires OwnersOk(s) && s'.threads.Keys == s.threads.Keys && t in s.threads
    requires forall x | x in s.threads && x != t :: s'.threads[x] == s.threads[x]
    requires s.threads[t].Owns() == s'.threads[t].Owns()
    requires s.threads[t].Owns() ==> s'.threads[t].lock == s.threads[t].lock
    requires s.mutexes.Keys <= s'.mutexes.Keys
    requires forall l | l in s'.mutexes :: s'.mutexes[l].locked == (l in s.mutexes && s.mutexes[l].locked)
    ensures OwnersOk(s')
  {
    forall l | l in s'.mutexes && s'.mutexes[l].locked
      ensures exists x :: x in s'.threads && s'.threads[x].Owns() && s'.threads[x].lock == l
    {
      var x :| x in s.threads && s.threads[x].Owns() && s.threads[x].lock == l;
      assert x in s'.threads && s'.threads[x].Owns() && s'.threads[x].lock == l;
    }
  }

  lemma ObtainKeepsInv<L>(s: State<L>, t: Tid)
    requires Inv(s) && CanObtain(s, t)
    ensures Inv(Obtain(s, t))
  {
    var s', l := Obtain(s, t), s.threads[t].lock;
    UsersObtain(s, t);
    assert LocksOk(s') && ThreadsOk(s');
    assert RefsOk(s') by {
      hide Users;
    }
    forall m | m in s'.mutexes && s'.mutexes[m].locked
      ensures exists x :: x in s'.threads && s'.threads[x].Owns() && s'.threads[x].lock == m
    {
      if m == l {
        assert s'.threads[t].Owns() && s'.threads[t].lock == m;
      } else {
        var x :| x in s.threads && s.threads[x].Owns() && s.threads[x].lock == m;
        assert s'.threads[x].Owns() && s'.threads[x].lock == m;
      }
    }
  }

  lemma DropKeepsRefs<L>(s: State<L>, t: Tid)
    requires Inv(s) && CanDrop(s, t)
    ensures RefsOk(Drop(s, t))
    ensures s.threads[t].key !in Drop(s, t).locks <==> Users(Drop(s, t), s.threads[t].key) == {}
  {
    var s', key := Drop(s, t), s.threads[t].key;
    UsersDrop(s, t);
    hide Users, ThreadsOk, OwnersOk;
    assert |Users(s', key)| == |Users(s, key)| - 1;
    forall k | k in s'.locks && s'.locks[k] in s'.mutexes
      ensures s'.mutexes[s'.locks[k]].refs == |Users(s', k)| && Users(s', k) != {}
    {
      if k != key {
        assert k in s.locks && s.locks[k] in s.mutexes && s.locks[k] != s.locks[key];
      }
    }
  }

  lemma DropKeepsThreads<L>(s: State<L>, t: Tid)
    requires Inv(s) && CanDrop(s, t)
    ensures ThreadsOk(Drop(s, t))
  {
    var s', key := Drop(s, t), s.threads[t].key;
    DropKeepsRefs(s, t);
    hide RefsOk, OwnersOk;
    forall x, k | x in s'.threads && s'.threads[x].Uses(k)
      ensures k in s'.locks && s'.locks[k] == s'.threads[x].lock
    {
      assert x in Users(s', k) && s.threads[x].Uses(k);
    }
  }

  lemma DropKeepsInv<L>(s: State<L>, t: Tid)
    requires Inv(s) && CanDrop(s, t)
    ensures Inv(Drop(s, t))
  {
    var key := s.threads[t].key;
    DropKeepsRefs(s, t);
    DropKeepsThreads(s, t);
    assert s.threads[t].Uses(key);
    hide Users, RefsOk, ThreadsOk;
    OwnersKept(s, Drop(s, t), t);
    hide OwnersOk;
  }

  lemma ReleaseKeepsInv<L>(s: State<L>, t: Tid)
    requires Inv(s) && CanRelease(s, t)
    ensures Inv(Release(s, t))
  {
    var s', l := Release(s, t), s.threads[t].lock;
    UsersRelease(s, t);
    assert LocksOk(s') && ThreadsOk(s');
    assert RefsOk(s') by {
      hide Users;
    }
    forall m | m in s'.mutexes && s'.mutexes[m].locked
      ensures exists x :: x in s'.threads && s'.threads[x].Owns() && s'.threads[x].lock == m
    {
      var x :| x in s.threads && s.threads[x].Owns() && s.threads[x].lock == m;
      assert s'.threads[x].Owns() && s'.threads[x].lock == m;
    }
  }

  lemma NextKeepsInv<L>(s: State<L>, s': State<L>)
    requires Inv(s) && Next(s, s')
    ensures Inv(s')
  {
    hide Inv, Enter, Obtain, Drop, Release;
    if t, key :| t in s.threads && key in s'.locks && CanEnter(s, t, key, s'.locks[key])
                 && s' == Enter(s, t, key, s'.locks[key])
    {
      EnterKeepsInv(s, t, key, s'.locks[key]);
    } else if t :| t in s.threads && CanObtain(s, t) && s' == Obtain(s, t) {
      ObtainKeepsInv(s, t);
    } else if t :| t in s.threads && CanDrop(s, t) && s' == Drop(s, t) {
      DropKeepsInv(s, t);
    } else {
      var t :| t in s.threads && CanRelease(s, t) && s' == Release(s, t);
      ReleaseKeepsInv(s, t);
    }
  }

  /** A run: any interleaving of steps from an empty lock. */
  ghost predicate Run<L>(run: seq<State<L>>) {
    && run != [] && Init(run[0])
    && forall i | 0 <= i < |run| - 1 :: Next(run[i], run[i + 1])
  }

  lemma {:induction false} RunKeepsInv<L>(run: seq<State<L>>, i: nat)
    requires Run(run) && i < |run|
    ensures Inv(run[i])
  {
    if i == 0 {
      assert forall k :: Users(run[0], k) == {};
    } else {
      hide Inv;
      RunKeepsInv(run, i - 1);
      assert Next(run[i - 1], run[i - 1 + 1]);
      NextKeepsInv(run[i - 1], run[i]);
    }
  }

  // --------------------------------------------------------------------------
  // What the lock promises

  /**
   In every state of every run: at most one thread is between Lock's return and Unlock's start for a key; an entry's
   count is the number of threads that wait for or hold its key; and an entry exists exactly while there is one.
   */
  lemma LockIsExclusiveAndCounted<L>(run: seq<State<L>>, i: nat)
    requires Run(run) && i < |run|
    ensures var s := run[i];
            && (forall t, t' | t in s.threads && t' in s.threads && s.threads[t].Holding? && s.threads[t'].Holding? ::
                  s.threads[t].key == s.threads[t'].key ==> t == t')
            && (forall k | k in s.locks ::
                  s.locks[k] in s.mutexes && s.mutexes[s.locks[k]].refs == |Users(s, k)|)
            && (forall k :: k in s.locks <==> |Users(s, k)| > 0)
  {
    var s := run[i];
    RunKeepsInv(run, i);
    forall t | t in s.threads && s.threads[t].Holding?
      ensures s.threads[t].key in s.locks && s.locks[s.threads[t].key] == s.threads[t].lock
    {
      assert s.threads[t].Uses(s.threads[t].key);
    }
    forall k | k !in s.locks ensures Users(s, k) == {} {
      UnusedKey(s, k);
    }
  }

  /** Whenever a thread waits it can go on, or the owner of its mutex can take its next Unlock step. */
  lemma WaitingIsNeverStuck<L>(run: seq<State<L>>, i: nat, t: Tid) returns (mover: Tid)
    requires Run(run) && i < |run| && t in run[i].threads && run[i].threads[t].Waiting?
    ensures mover in run[i].threads
    ensures mover == t ==> CanObtain(run[i], t)
    ensures mover != t ==> run[i].threads[mover].Owns() && run[i].threads[mover].lock == run[i].threads[t].lock
                           && (CanDrop(run[i], mover) || CanRelease(run[i], mover))
  {
    var s := run[i];
    RunKeepsInv(run, i);
    if !s.mutexes[s.threads[t].lock].locked {
      return t;
    }
    mover :| mover in s.threads && s.threads[mover].Owns() && s.threads[mover].lock == s.threads[t].lock;
    if s.threads[mover].Holding? {
      assert s.threads[mover].Uses(s.threads[mover].key);
    }
  }
}
