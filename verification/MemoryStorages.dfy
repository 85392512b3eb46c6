/**
 The in-process storage (fsm_memory.go), proved to be the abstract storage.
 */
module MemoryStorages {
  import opened Options
  import opened Json
  import opened Conversations

  datatype Entry = Entry(state: string, data: Data)

  /** copyData: an empty map is copied without marshalling. */
  function CopyData(data: Data): Option<Data> {
    if data == map[] then Some(map[]) else Image(data)
  }

  lemma CopyIsImage(data: Data)
    ensures CopyData(data) == Image(data)
  {
    ImageEmpty();
  }

  function Held(entries: map<StorageKey, Entry>, key: StorageKey): Conversation {
    if key in entries then Conversation(entries[key].state, entries[key].data) else EMPTY
  }

  ghost predicate Same(entries: map<StorageKey, Entry>, m: map<StorageKey, Conversation>) {
    forall key :: Held(entries, key) == Look(m, key)
  }

  lemma PutKeepsSame(entries: map<StorageKey, Entry>, m: map<StorageKey, Conversation>, key: StorageKey, e: Entry)
    requires Same(entries, m)
    ensures Same(entries[key := e], m[key := Conversation(e.state, e.data)])
    ensures Same(entries - {key}, m - {key})
  {
    var entries', m' := entries[key := e], m[key := Conversation(e.state, e.data)];
    forall k ensures Held(entries', k) == Look(m', k) {
      assert Held(entries, k) == Look(m, k);
      assert k == key ==> entries'[k] == e && m'[k] == Conversation(e.state, e.data);
    }
    forall k ensures Held(entries - {key}, k) == Look(m - {key}, k) {
      assert Held(entries, k) == Look(m, k);
    }
  }

  class MemoryStorage {
    var entries: map<StorageKey, Entry>

    ghost predicate Valid()
      reads this
    {
      forall key | key in entries :: Normal(entries[key].data)
    }

    /** This storage holds what the abstract storage m holds. */
    ghost predicate Refines(m: map<StorageKey, Conversation>)
      reads this
    {
      Valid() && Same(entries, m)
    }

    constructor ()
      ensures Refines(map[])
    {
      entries := map[];
      new;
      ImageEmpty();
    }

    /** The entry of a key, made if there is none. */
    method Get(key: StorageKey) returns (e: Entry)
      requires Valid()
      modifies this
      ensures Valid() && key in entries && entries[key] == e
      ensures forall m | Same(old(entries), m) :: Same(entries, m)
    {
      ImageEmpty();
      if key !in entries {
        entries := entries[key := Entry(NO_STATE, map[])];
      }
      e := entries[key];
    }

    method SetState(key: StorageKey, state: string, ghost m: map<StorageKey, Conversation>) returns (reply: Reply)
      requires Refines(m)
      modifies this
      ensures Refines(Step(m, Op.SetState(key, state)).0) && reply == Step(m, Op.SetState(key, state)).1
    {
      var e := Get(key);
      PutKeepsSame(entries, m, key, e.(state := state));
      entries := entries[key := e.(state := state)];
      reply := Done;
    }

    method GetState(key: StorageKey, ghost m: map<StorageKey, Conversation>) returns (reply: Reply)
      requires Refines(m)
      ensures Refines(Step(m, Op.GetState(key)).0) && reply == Step(m, Op.GetState(key)).1
    {
      assert Held(entries, key) == Look(m, key);
      if key !in entries {
        return Current(NO_STATE);
      }
      return Current(entries[key].state);
    }

    method SetData(key: StorageKey, data: Data, ghost m: map<StorageKey, Conversation>) returns (reply: Reply)
      requires Refines(m)
      modifies this
      ensures Refines(Step(m, Op.SetData(key, data)).0) && reply == Step(m, Op.SetData(key, data)).1
    {
      var copied := CopyData(data);
      CopyIsImage(data);
      if copied.None? {
        return Failed;
      }
      ImageIdempotent(data);
      var e := Get(key);
      PutKeepsSame(entries, m, key, e.(data := copied.value));
      entries := entries[key := e.(data := copied.value)];
      reply := Done;
    }

    method GetData(key: StorageKey, ghost m: map<StorageKey, Conversation>) returns (reply: Reply)
      requires Refines(m)
      ensures Refines(Step(m, Op.GetData(key)).0) && reply == Step(m, Op.GetData(key)).1
    {
      assert Held(entries, key) == Look(m, key);
      if key !in entries {
        return Contents(map[]);
      }
      CopyIsImage(entries[key].data);
      var copied := CopyData(entries[key].data);
      return if copied.Some? then Contents(copied.value) else Failed;
    }

    method UpdateData(key: StorageKey, partial: Data, ghost m: map<StorageKey, Conversation>) returns (reply: Reply)
      requires Refines(m)
      modifies this
      ensures Refines(Step(m, Op.UpdateData(key, partial)).0) && reply == Step(m, Op.UpdateData(key, partial)).1
    {
      assert Held(entries, key) == Look(m, key);
      var e := Get(key);
      var merged := e.data + partial;
      var copied := CopyData(merged);
      CopyIsImage(merged);
      if copied.None? {
        return Failed;
      }
      ImageIdempotent(merged);
      PutKeepsSame(entries, m, key, e.(data := copied.value));
      entries := entries[key := e.(data := copied.value)];
      CopyIsImage(copied.value);
      var again := CopyData(copied.value);
      return if again.Some? then Contents(again.value) else Failed;
    }

    method Clear(key: StorageKey, ghost m: map<StorageKey, Conversation>) returns (reply: Reply)
      requires Refines(m)
      modifies this
      ensures Refines(Step(m, Op.Clear(key)).0) && reply == Step(m, Op.Clear(key)).1
    {
      PutKeepsSame(entries, m, key, Entry(NO_STATE, map[]));
      entries := entries - {key};
      reply := Done;
    }
  }
}
