/**
 Dispatches that update conversation data under the keyed lock (bot.go, storage/redis/storage.go): UpdateData is
 three separate steps (get, merge, set), and only the lock keeps dispatches of one key from losing each other's.
 */
module UpdateRace {
  import opened Options
  import opened Json
  import opened Conversations
  import opened KeyedMutex

  /** What a handler is in the middle of: nothing, an update whose data it has read, or one it has merged. */
  datatype Work = NoWork | Got(partial: Data, existing: Data) | Merged(partial: Data, merged: Data)

  /** An update that reached the storage, with the ticket its dispatch drew when it got the lock. */
  datatype Logged = Logged(ticket: nat, partial: Data)

  datatype System<L(==)> = System(
    lock: State<L>,
    data: map<StorageKey, Data>,
    work: map<Tid, Work>,
    tickets: map<Tid, nat>,
    next: nat,
    log: map<StorageKey, seq<Logged>>)

  function Read(data: map<StorageKey, Data>, key: StorageKey): Data {
    if key in data then data[key] else map[]
  }

  function LogOf(log: map<StorageKey, seq<Logged>>, key: StorageKey): seq<Logged> {
    if key in log then log[key] else []
  }

  /** Set: storing data that cannot be marshalled fails and changes nothing. */
  function Stored(old_: Data, merged: Data): Data {
    if Image(merged).Some? then Image(merged).value else old_
  }

  /** One whole UpdateData with nothing in between. */
  function Apply(data: Data, partial: Data): Data {
    Stored(data, data + partial)
  }

  /** That is what the abstract storage's own UpdateData does. */
  lemma ApplyIsUpdateData(m: map<StorageKey, Conversation>, key: StorageKey, partial: Data)
    ensures Look(Step(m, Op.UpdateData(key, partial)).0, key).data == Apply(Look(m, key).data, partial)
  {
    hide Image;
  }

  /** Updates run one after another on an empty conversation. */
  function Serial(log: seq<Logged>): Data {
    if log == [] then map[] else Apply(Serial(log[..|log| - 1]), log[|log| - 1].partial)
  }

  // --------------------------------------------------------------------------
  // The atomic steps

  predicate Holds<L>(s: System<L>, t: Tid) {
    t in s.lock.threads && s.lock.threads[t].Holding? && t in s.work && t in s.tickets
  }

  ghost predicate Enters<L>(s: System<L>, s': System<L>) {
    exists t, key | t in s.lock.threads && key in s'.lock.locks ::
      CanEnter(s.lock, t, key, s'.lock.locks[key])
      && s' == s.(lock := Enter(s.lock, t, key, s'.lock.locks[key]))
  }

  /** A dispatch gets its lock and draws the next ticket. */
  ghost predicate Obtains<L>(s: System<L>, s': System<L>) {
    exists t | t in s.lock.threads ::
      CanObtain(s.lock, t)
      && s' == s.(lock := Obtain(s.lock, t), work := s.work[t := NoWork],
                  tickets := s.tickets[t := s.next], next := s.next + 1)
  }

  /** The handler starts an UpdateData of any partial map. */
  ghost predicate Gets<L>(s: System<L>, s': System<L>) {
    exists t, partial | t in s.work ::
      Holds(s, t) && s.work[t] == NoWork
      && s' == s.(work := s.work[t := Got(partial, Read(s.data, s.lock.threads[t].key))])
  }

  ghost predicate Merges<L>(s: System<L>, s': System<L>) {
    exists t | t in s.work ::
      Holds(s, t) && s.work[t].Got?
      && s' == s.(work := s.work[t := Merged(s.work[t].partial, s.work[t].existing + s.work[t].partial)])
  }

  function Set<L>(s: System<L>, t: Tid): System<L>
    requires Holds(s, t) && s.work[t].Merged?
  {
    var key := s.lock.threads[t].key;
    s.(data := s.data[key := Stored(Read(s.data, key), s.work[t].merged)],
       work := s.work[t := NoWork],
       log := s.log[key := LogOf(s.log, key) + [Logged(s.tickets[t], s.work[t].partial)]])
  }

  ghost predicate Sets<L>(s: System<L>, s': System<L>) {
    exists t | t in s.work :: Holds(s, t) && s.work[t].Merged? && s' == Set(s, t)
  }

  /** The dispatch ends: its handler is not in the middle of an update. */
  ghost predicate Drops<L>(s: System<L>, s': System<L>) {
    exists t | t in s.lock.threads ::
      CanDrop(s.lock, t) && t in s.work && s.work[t] == NoWork && s' == s.(lock := Drop(s.lock, t))
  }

  ghost predicate Releases<L>(s: System<L>, s': System<L>) {
    exists t | t in s.lock.threads :: CanRelease(s.lock, t) && s' == s.(lock := Release(s.lock, t))
  }

  ghost predicate Next<L>(s: System<L>, s': System<L>) {
    Enters(s, s') || Obtains(s, s') || Gets(s, s') || Merges(s, s') || Sets(s, s') || Drops(s, s') || Releases(s, s')
  }

  ghost predicate Init<L>(s: System<L>) {
    KeyedMutex.Init(s.lock) && s.data == map[] && s.work == map[] && s.tickets == map[] && s.log == map[]
  }

  // --------------------------------------------------------------------------
  // What every interleaving keeps

  /** What a thread has read or merged is still what the storage has for its key. */
  ghost predicate WorkOk<L>(s: System<L>, t: Tid)
    requires t in s.lock.threads && s.lock.threads[t].Holding?
  {
    var now := Read(s.data, s.lock.threads[t].key);
    && t in s.work && t in s.tickets && s.tickets[t] < s.next
    && (s.work[t].Got? ==> s.work[t].existing == now)
    && (s.work[t].Merged? ==> s.work[t].merged == now + s.work[t].partial)
    && (forall i | 0 <= i < |LogOf(s.log, s.lock.threads[t].key)| ::
          LogOf(s.log, s.lock.threads[t].key)[i].ticket <= s.tickets[t])
  }

  ghost predicate LogOk<L>(s: System<L>, key: StorageKey) {
    var log := LogOf(s.log, key);
    && Read(s.data, key) == Serial(log)
    && (forall i | 0 <= i < |log| :: log[i].ticket < s.next)
    && (forall i, j | 0 <= i < j < |log| :: log[i].ticket <= log[j].ticket)
  }

  /** All that does not concern the lock itself. */
  ghost predicate DataOk<L>(s: System<L>) {
    && (forall t | t in s.lock.threads && s.lock.threads[t].Holding? :: WorkOk(s, t))
    && (forall key :: LogOk(s, key))
  }

  ghost predicate Inv<L>(s: System<L>) {
    KeyedMutex.Inv(s.lock) && DataOk(s)
  }

  lemma HolderIsAlone<L>(s: State<L>, t: Tid, t': Tid)
    requires KeyedMutex.Inv(s) && t in s.threads && t' in s.threads
    requires s.threads[t].Holding? && s.threads[t'].Holding? && s.threads[t].key == s.threads[t'].key
    ensures t == t'
  {
    assert s.threads[t].Uses(s.threads[t].key) && s.threads[t'].Uses(s.threads[t].key);
  }

  /** A step of the lock alone, by a thread that does not come to hold anything by it. */
  lemma LockStepKeepsData<L>(s: System<L>, s': System<L>)
    requires DataOk(s) && s' == s.(lock := s'.lock)
    requires forall t | t in s'.lock.threads && s'.lock.threads[t].Holding? ::
      t in s.lock.threads && s.lock.threads[t] == s'.lock.threads[t]
    ensures DataOk(s')
  {
    forall t | t in s'.lock.threads && s'.lock.threads[t].Holding? ensures WorkOk(s', t) {
      assert WorkOk(s, t);
    }
    forall key ensures LogOk(s', key) {
      assert LogOk(s, key);
    }
  }

  lemma ObtainKeepsWork<L>(s: System<L>, s': System<L>, t: Tid, x: Tid)
    requires DataOk(s) && CanObtain(s.lock, t)
    requires s' == s.(lock := Obtain(s.lock, t), work := s.work[t := NoWork],
                      tickets := s.tickets[t := s.next], next := s.next + 1)
    requires x in s'.lock.threads && s'.lock.threads[x].Holding?
    ensures WorkOk(s', x)
  {
    hide Serial;
    assert LogOk(s, s'.lock.threads[x].key);
    if x != t {
      assert WorkOk(s, x);
    }
  }

  lemma ObtainKeepsData<L>(s: System<L>, s': System<L>, t: Tid)
    requires DataOk(s) && CanObtain(s.lock, t)
    requires s' == s.(lock := Obtain(s.lock, t), work := s.work[t := NoWork],
                      tickets := s.tickets[t := s.next], next := s.next + 1)
    ensures DataOk(s')
  {
    hide WorkOk, Serial;
    forall key ensures LogOk(s', key) {
      assert LogOk(s, key);
    }
    forall x | x in s'.lock.threads && s'.lock.threads[x].Holding? ensures WorkOk(s', x) {
      ObtainKeepsWork(s, s', t, x);
    }
  }

  lemma SetKeepsLog<L>(s: System<L>, t: Tid, key: StorageKey)
    requires DataOk(s) && Holds(s, t) && s.work[t].Merged?
    ensures LogOk(Set(s, t), key)
  {
    hide Image;
    assert LogOk(s, key) && WorkOk(s, t);
    if key == s.lock.threads[t].key {
      var log, log' := LogOf(s.log, key), LogOf(Set(s, t).log, key);
      assert log'[..|log'| - 1] == log;
      assert Read(Set(s, t).data, key) == Apply(Serial(log), s.work[t].partial);
    }
  }

  lemma SetKeepsWork<L>(s: System<L>, t: Tid, x: Tid)
    requires Holds(s, t) && s.work[t].Merged? && x in s.lock.threads && s.lock.threads[x].Holding?
    requires WorkOk(s, x) && (x != t ==> s.lock.threads[x].key != s.lock.threads[t].key)
    ensures WorkOk(Set(s, t), x)
  {
    hide Stored;
    var key := s.lock.threads[t].key;
    if x == t {
      var log' := LogOf(Set(s, t).log, key);
      assert forall i | 0 <= i < |log'| - 1 :: log'[i] == LogOf(s.log, key)[i];
    } else {
      assert LogOf(Set(s, t).log, s.lock.threads[x].key) == LogOf(s.log, s.lock.threads[x].key);
    }
  }

  lemma SetKeepsData<L>(s: System<L>, t: Tid)
    requires Inv(s) && Holds(s, t) && s.work[t].Merged?
    ensures DataOk(Set(s, t))
  {
    hide KeyedMutex.Inv, LogOk, WorkOk;
    forall key ensures LogOk(Set(s, t), key) {
      SetKeepsLog(s, t, key);
    }
    forall x | x in s.lock.threads && s.lock.threads[x].Holding? ensures WorkOk(Set(s, t), x) {
      if x != t && s.lock.threads[x].key == s.lock.threads[t].key {
        HolderIsAlone(s.lock, t, x);
      }
      SetKeepsWork(s, t, x);
    }
  }

  lemma WorkStepKeepsData<L>(s: System<L>, s': System<L>, t: Tid, w: Work)
    requires DataOk(s) && Holds(s, t) && s' == s.(work := s.work[t := w])
    requires w.Got? ==> w.existing == Read(s.data, s.lock.threads[t].key)
    requires w.Merged? ==> w.merged == Read(s.data, s.lock.threads[t].key) + w.partial
    ensures DataOk(s')
  {
    hide Serial;
    forall x | x in s'.lock.threads && s'.lock.threads[x].Holding? ensures WorkOk(s', x) {
      assert WorkOk(s, x);
    }
    forall key ensures LogOk(s', key) {
      assert LogOk(s, key);
    }
  }

  lemma LockStepsKeepInv<L>(s: System<L>, s': System<L>)
    requires Inv(s) && (Enters(s, s') || Drops(s, s') || Releases(s, s'))
    ensures Inv(s')
  {
    hide KeyedMutex.Inv, LogOk, WorkOk;
    if Enters(s, s') {
      var t, key :| t in s.lock.threads && key in s'.lock.locks && CanEnter(s.lock, t, key, s'.lock.locks[key])
                    && s' == s.(lock := Enter(s.lock, t, key, s'.lock.locks[key]));
      EnterKeepsInv(s.lock, t, key, s'.lock.locks[key]);
    } else if Drops(s, s') {
      var t :| t in s.lock.threads && CanDrop(s.lock, t) && t in s.work && s.work[t] == NoWork
               && s' == s.(lock := Drop(s.lock, t));
      DropKeepsInv(s.lock, t);
    } else {
      var t :| t in s.lock.threads && CanRelease(s.lock, t) && s' == s.(lock := Release(s.lock, t));
      ReleaseKeepsInv(s.lock, t);
    }
    LockStepKeepsData(s, s');
  }

  lemma WorkStepsKeepInv<L>(s: System<L>, s': System<L>)
    requires Inv(s) && (Gets(s, s') || Merges(s, s') || Sets(s, s'))
    ensures Inv(s')
  {
    hide KeyedMutex.Inv, LogOk;
    if Gets(s, s') {
      var t, partial :| t in s.work && Holds(s, t) && s.work[t] == NoWork
                        && s' == s.(work := s.work[t := Got(partial, Read(s.data, s.lock.threads[t].key))]);
      WorkStepKeepsData(s, s', t, Got(partial, Read(s.data, s.lock.threads[t].key)));
    } else if Merges(s, s') {
      var t :| t in s.work && Holds(s, t) && s.work[t].Got?
               && s' == s.(work := s.work[t := Merged(s.work[t].partial, s.work[t].existing + s.work[t].partial)]);
      assert WorkOk(s, t);
      WorkStepKeepsData(s, s', t, Merged(s.work[t].partial, s.work[t].existing + s.work[t].partial));
    } else {
      var t :| t in s.work && Holds(s, t) && s.work[t].Merged? && s' == Set(s, t);
      SetKeepsData(s, t);
    }
  }

  lemma ObtainKeepsAll<L>(s: System<L>, s': System<L>)
    requires Inv(s) && Obtains(s, s')
    ensures Inv(s')
  {
    hide KeyedMutex.Inv, DataOk;
    var t :| t in s.lock.threads && CanObtain(s.lock, t)
             && s' == s.(lock := Obtain(s.lock, t), work := s.work[t := NoWork],
                         tickets := s.tickets[t := s.next], next := s.next + 1);
    ObtainKeepsInv(s.lock, t);
    ObtainKeepsData(s, s', t);
  }

  lemma {:induction false} NextKeepsInv<L>(s: System<L>, s': System<L>)
    requires Inv(s) && Next(s, s')
    ensures Inv(s')
  {
    hide Inv, Enters, Obtains, Drops, Releases, Gets, Merges, Sets;
    if Enters(s, s') || Drops(s, s') || Releases(s, s') {
      LockStepsKeepInv(s, s');
    } else if Gets(s, s') || Merges(s, s') || Sets(s, s') {
      WorkStepsKeepInv(s, s');
    } else {
      ObtainKeepsAll(s, s');
    }
  }

  ghost predicate Run<L>(run: seq<System<L>>) {
    && run != [] && Init(run[0])
    && forall i | 0 <= i < |run| - 1 :: Next(run[i], run[i + 1])
  }

  lemma {:induction false} RunKeepsInv<L>(run: seq<System<L>>, i: nat)
    requires Run(run) && i < |run|
    ensures Inv(run[i])
  {
    if i == 0 {
      assert forall k :: Users(run[0].lock, k) == {};
    } else {
      hide Inv;
      RunKeepsInv(run, i - 1);
      assert Next(run[i - 1], run[i - 1 + 1]);
      NextKeepsInv(run[i - 1], run[i]);
    }
  }

  /**
   In every state of every run, each conversation's data is what its completed updates give when run one after
   another: the updates of one dispatch together, dispatches in the order in which they got the lock.
   */
  lemma NoUpdateIsLost<L>(run: seq<System<L>>, i: nat, key: StorageKey)
    requires Run(run) && i < |run|
    ensures var log := LogOf(run[i].log, key);
            && Read(run[i].data, key) == Serial(log)
            && forall j, k | 0 <= j < k < |log| :: log[j].ticket <= log[k].ticket
  {
    RunKeepsInv(run, i);
    assert LogOk(run[i], key);
  }

  // --------------------------------------------------------------------------
  // Without the lock

  /** The same three steps on one conversation, by dispatches that hold no lock. */
  datatype Unlocked = Unlocked(data: Data, work: map<Tid, Work>)

  predicate GetsUnlocked(s: Unlocked, s': Unlocked, t: Tid, partial: Data) {
    t in s.work && s.work[t] == NoWork && s' == s.(work := s.work[t := Got(partial, s.data)])
  }

  predicate MergesUnlocked(s: Unlocked, s': Unlocked, t: Tid) {
    && t in s.work && s.work[t].Got?
    && s' == s.(work := s.work[t := Merged(s.work[t].partial, s.work[t].existing + s.work[t].partial)])
  }

  predicate SetsUnlocked(s: Unlocked, s': Unlocked, t: Tid) {
    && t in s.work && s.work[t].Merged?
    && s' == Unlocked(Stored(s.data, s.work[t].merged), s.work[t := NoWork])
  }

  ghost predicate NextUnlocked(s: Unlocked, s': Unlocked) {
    || (exists t, partial :: GetsUnlocked(s, s', t, partial))
    || (exists t :: MergesUnlocked(s, s', t))
    || (exists t :: SetsUnlocked(s, s', t))
  }

  ghost predicate UnlockedRun(run: seq<Unlocked>) {
    run != [] && forall i | 0 <= i < |run| - 1 :: NextUnlocked(run[i], run[i + 1])
  }

  /** What two updates that both read before either sets leave behind. */
  function Raced(data: Data, p: Data, q: Data): Data {
    Stored(Stored(data, data + p), data + q)
  }

  /** There is such a run, for any data and any two updates. */
  lemma RaceIsARun(data: Data, p: Data, q: Data, t: Tid, u: Tid) returns (run: seq<Unlocked>)
    requires t != u
    ensures UnlockedRun(run) && run[0] == Unlocked(data, map[t := NoWork, u := NoWork])
    ensures run[|run| - 1] == Unlocked(Raced(data, p, q), map[t := NoWork, u := NoWork])
  {
    hide Stored, GetsUnlocked, MergesUnlocked, SetsUnlocked;
    var s0 := Unlocked(data, map[t := NoWork, u := NoWork]);
    var s1 := Unlocked(data, map[t := Got(p, data), u := NoWork]);
    var s2 := Unlocked(data, map[t := Got(p, data), u := Got(q, data)]);
    var s3 := Unlocked(data, map[t := Merged(p, data + p), u := Got(q, data)]);
    var s4 := Unlocked(data, map[t := Merged(p, data + p), u := Merged(q, data + q)]);
    var s5 := Unlocked(Stored(data, data + p), map[t := NoWork, u := Merged(q, data + q)]);
    var s6 := Unlocked(Raced(data, p, q), map[t := NoWork, u := NoWork]);
    BothGet(s0, s1, s2, p, q, t, u);
    BothMerge(s2, s3, s4, p, q, t, u);
    BothSet(s4, s5, s6, p, q, t, u);
    assert NextUnlocked(s0, s1) && NextUnlocked(s1, s2) && NextUnlocked(s2, s3);
    assert NextUnlocked(s3, s4) && NextUnlocked(s4, s5) && NextUnlocked(s5, s6);
    hide NextUnlocked;
    run := [s0, s1, s2, s3, s4, s5, s6];
  }

  lemma BothGet(s0: Unlocked, s1: Unlocked, s2: Unlocked, p: Data, q: Data, t: Tid, u: Tid)
    requires t != u && s0.work == map[t := NoWork, u := NoWork]
    requires s1 == s0.(work := map[t := Got(p, s0.data), u := NoWork])
    requires s2 == s0.(work := map[t := Got(p, s0.data), u := Got(q, s0.data)])
    ensures GetsUnlocked(s0, s1, t, p) && GetsUnlocked(s1, s2, u, q)
  {
  }

  lemma BothMerge(s2: Unlocked, s3: Unlocked, s4: Unlocked, p: Data, q: Data, t: Tid, u: Tid)
    requires t != u && s2.work == map[t := Got(p, s2.data), u := Got(q, s2.data)]
    requires s3 == s2.(work := map[t := Merged(p, s2.data + p), u := Got(q, s2.data)])
    requires s4 == s2.(work := map[t := Merged(p, s2.data + p), u := Merged(q, s2.data + q)])
    ensures MergesUnlocked(s2, s3, t) && MergesUnlocked(s3, s4, u)
  {
  }

  lemma BothSet(s4: Unlocked, s5: Unlocked, s6: Unlocked, p: Data, q: Data, t: Tid, u: Tid)
    requires t != u && s4.work == map[t := Merged(p, s4.data + p), u := Merged(q, s4.data + q)]
    requires s5 == Unlocked(Stored(s4.data, s4.data + p), map[t := NoWork, u := Merged(q, s4.data + q)])
    requires s6 == Unlocked(Raced(s4.data, p, q), map[t := NoWork, u := NoWork])
    ensures SetsUnlocked(s4, s5, t) && SetsUnlocked(s5, s6, u)
  {
    hide Stored;
  }

  /** The first update writes something that the second does not overwrite and that was not there before. */
  predicate WritesMore(data: Data, p: Data, q: Data) {
    exists k | k in p :: k !in q && (k !in data || data[k] != ImageOf(p[k]))
  }

  /**
   The race leaves data that no serial order of the two updates gives exactly when both can be stored and the first
   writes more: then what it wrote is lost.
   */
  lemma UnlockedUpdatesAreLostExactly(data: Data, p: Data, q: Data)
    requires Normal(data)
    ensures Raced(data, p, q) != Apply(Apply(data, p), q) && Raced(data, p, q) != Apply(Apply(data, q), p)
            <==> Image(p).Some? && Image(q).Some? && WritesMore(data, p, q)
  {
    ApplyIsWith(data, p);
    ApplyIsWith(data, q);
    ApplyIsWith(With(data, p), q);
    ApplyIsWith(With(data, q), p);
    StoredIsWith(With(data, p), data, q);
    assert Raced(data, p, q) == if Image(q).Some? then data + Image(q).value else With(data, p);
    hide Apply, Normal, Raced, Stored;
    if Image(p).Some? && Image(q).Some? {
      ImageByEntry(p);
      ImageByEntry(q);
      hide Image;
      LostExactly(data, p, q, Image(p).value, Image(q).value);
    }
  }

  /** Normal data after one update, which fails if it cannot be marshalled. */
  function With(data: Data, partial: Data): Data {
    if Image(partial).Some? then data + Image(partial).value else data
  }

  lemma StoredIsWith(old_: Data, data: Data, partial: Data)
    requires Normal(data)
    ensures Stored(old_, data + partial) == if Image(partial).Some? then data + Image(partial).value else old_
  {
    ImageOfMerge(data, partial);
  }

  lemma ApplyIsWith(data: Data, partial: Data)
    requires Normal(data)
    ensures Apply(data, partial) == With(data, partial) && Normal(With(data, partial))
  {
    StoredIsWith(data, data, partial);
    if Image(partial).Some? {
      ImageOfMerge(data, partial);
      ImageIdempotent(data + partial);
    }
  }

  /** The same on the images of what is written. */
  lemma LostExactly(data: Data, p: Data, q: Data, p': Data, q': Data)
    requires p' == ImageMap(p) && q'.Keys == q.Keys
    ensures data + q' != data + p' + q' && data + q' != data + q' + p' <==> WritesMore(data, p, q)
  {
    hide ImageOf;
    if WritesMore(data, p, q) {
      var k :| k in p && k !in q && (k !in data || data[k] != ImageOf(p[k]));
      assert (data + p' + q')[k] == ImageOf(p[k]) && (data + q' + p')[k] == ImageOf(p[k]);
      assert k in data + q' ==> (data + q')[k] == data[k];
    } else {
      assert forall k | k in p && k !in q :: k in data && data[k] == p'[k];
      assert data + q' == data + p' + q';
    }
  }
}
