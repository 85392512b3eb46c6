/**
 The keyed lock as the object it is (keyed_mutex.go): each method is one atomic step of Lock or Unlock, and changes
 the object exactly as the protocol's step says.
 */
module KeyedMutexClass {
  import opened Conversations
  import opened KeyedMutex

  class RefCountedMutex {
    var refs: int
    var locked: bool

    constructor ()
      ensures refs == 0 && !locked
    {
      refs, locked := 0, false;
    }
  }

  class DispatchLocks {
    var locks: map<StorageKey, RefCountedMutex>
    /** Every mutex made so far, and where every thread is. */
    ghost var made: set<RefCountedMutex>
    ghost var threads: map<Tid, Phase<RefCountedMutex>>

    ghost function Abs(): State<RefCountedMutex>
      reads this, made
    {
      State(locks, map m | m in made :: Counted(m.refs, m.locked), threads)
    }

    constructor (ghost tids: set<Tid>)
      ensures Init(Abs()) && Inv(Abs()) && threads.Keys == tids
    {
      locks, made := map[], {};
      threads := map t | t in tids :: Idle;
      new;
      assert forall k :: Users(Abs(), k) == {};
    }

    /** Lock under the map's mutex; returns the mutex to wait for. */
    method LockEnter(key: StorageKey, ghost t: Tid) returns (l: RefCountedMutex)
      requires Inv(Abs()) && t in threads && threads[t] == Idle
      modifies this, made
      ensures l in old(made) || fresh(l)
      ensures made == old(made) + {l}
      ensures CanEnter(old(Abs()), t, key, l) && Abs() == Enter(old(Abs()), t, key, l)
      ensures Inv(Abs())
    {
      hide RefsOk, OwnersOk, ThreadsOk, Users;
      ghost var before := Abs();
      if key in locks {
        l := locks[key];
        assert l in made;
      } else {
        l := new RefCountedMutex();
        locks := locks[key := l];
        made := made + {l};
      }
      l.refs := l.refs + 1;
      threads := threads[t := Waiting(key, l)];
      assert CanEnter(before, t, key, l);
      assert Abs() == Enter(before, t, key, l);
      EnterKeepsInv(before, t, key, l);
    }

    /** Lock's wait ends: the mutex was free. */
    method LockObtain(l: RefCountedMutex, ghost t: Tid)
      requires Inv(Abs()) && t in threads && threads[t].Waiting? && threads[t].lock == l && !l.locked
      modifies this`threads, l`locked
      ensures CanObtain(old(Abs()), t) && Abs() == Obtain(old(Abs()), t)
      ensures Inv(Abs())
    {
      ghost var before := Abs();
      l.locked := true;
      threads := threads[t := Holding(threads[t].key, l)];
      assert Abs() == Obtain(before, t);
      ObtainKeepsInv(before, t);
    }

    /** Unlock under the map's mutex; the entry is there, and is the mutex this thread holds. */
    method UnlockDrop(key: StorageKey, ghost t: Tid) returns (l: RefCountedMutex)
      requires Inv(Abs()) && t in threads && threads[t].Holding? && threads[t].key == key
      modifies this`locks, this`threads, made
      ensures l == old(threads[t].lock)
      ensures CanDrop(old(Abs()), t) && Abs() == Drop(old(Abs()), t)
      ensures Inv(Abs())
    {
      ghost var before := Abs();
      assert threads[t].Uses(key);
      l := locks[key];
      l.refs := l.refs - 1;
      if l.refs == 0 {
        locks := locks - {key};
      }
      threads := threads[t := Releasing(l)];
      assert Abs() == Drop(before, t);
      DropKeepsInv(before, t);
    }

    method UnlockRelease(l: RefCountedMutex, ghost t: Tid)
      requires Inv(Abs()) && t in threads && threads[t] == Releasing(l)
      modifies this`threads, l`locked
      ensures CanRelease(old(Abs()), t) && Abs() == Release(old(Abs()), t)
      ensures Inv(Abs())
    {
      ghost var before := Abs();
      l.locked := false;
      threads := threads[t := Idle];
      assert Abs() == Release(before, t);
      ReleaseKeepsInv(before, t);
    }
  }
}
