/**
 What a conversation storage remembers (fsm.go): after any operations a conversation's state is what the last operation
 that set it made it, and so is each entry of its data.
 */
module ConversationLaws {
  import opened Options
  import opened Json
  import opened Conversations

  /** Where the operations lead, from an empty storage. */
  function After(ops: seq<Op>): map<StorageKey, Conversation> {
    if ops == [] then map[] else Step(After(ops[..|ops| - 1]), ops[|ops| - 1]).0
  }

  /** What the next operation answers. */
  function Answer(ops: seq<Op>, op: Op): Reply {
    Step(After(ops), op).1
  }

  // --------------------------------------------------------------------------
  // Last writes

  predicate SetsState(op: Op, key: StorageKey) {
    op.key == key && (op.SetState? || op.Clear?)
  }

  predicate IsGood(data: Data) {
    forall k | k in data :: HasNoneUnmarshalable(data[k])
  }

  /** The operation decides what the conversation has under name: a successful one does, if it writes it at all. */
  predicate SetsEntry(op: Op, key: StorageKey, name: string) {
    && op.key == key
    && (op.Clear? || (op.SetData? && IsGood(op.data)) || (op.UpdateData? && IsGood(op.partial) && name in op.partial))
  }

  /** What it has then. */
  function EntrySet(op: Op, name: string): Option<Value> {
    if op.SetData? && name in op.data then Some(Generic(op.data[name]))
    else if op.UpdateData? && name in op.partial then Some(Generic(op.partial[name]))
    else None
  }

  function Entry(data: Data, name: string): Option<Value> {
    if name in data then Some(data[name]) else None
  }

  lemma ImageOfData(data: Data)
    ensures Image(data).Some? <==> IsGood(data)
    ensures Image(data).Some? ==> forall name :: Entry(Image(data).value, name) == EntrySet(SetData(StorageKey(0, 0, 0), data), name)
  {
    forall name | name in data
      ensures Marshal(data[name]).Some? <==> HasNoneUnmarshalable(data[name])
      ensures Marshal(data[name]).Some? ==> Unmarshal(Marshal(data[name]).value) == Generic(data[name])
    {
      ImageExactly(data[name]);
    }
    hide Marshal, Unmarshal, Generic, HasNoneUnmarshalable;
    ImageByEntry(data);
  }

  lemma {:induction false} DataIsNormal(ops: seq<Op>, key: StorageKey)
    ensures Normal(Look(After(ops), key).data)
  {
    ImageEmpty();
    if ops != [] {
      var before, op := ops[..|ops| - 1], ops[|ops| - 1];
      DataIsNormal(before, key);
      var m := After(before);
      hide Image;
      if op.key == key {
        if op.SetData? && Image(op.data).Some? {
          ImageIdempotent(op.data);
        } else if op.UpdateData? && Image(Look(m, key).data + op.partial).Some? {
          ImageIdempotent(Look(m, key).data + op.partial);
        }
      }
    }
  }

  /** The state is the one that the last SetState or Clear of the conversation left, or empty if there was none. */
  lemma {:induction false} StateIsLastSet(ops: seq<Op>, key: StorageKey) returns (i: int)
    ensures -1 <= i < |ops| && forall j | i < j < |ops| :: !SetsState(ops[j], key)
    ensures i >= 0 ==> SetsState(ops[i], key)
    ensures Answer(ops, GetState(key)) == Current(if i >= 0 && ops[i].SetState? then ops[i].state else "")
  {
    i := -1;
    if ops != [] {
      var k := |ops| - 1;
      if SetsState(ops[k], key) {
        return k;
      }
      i := StateIsLastSet(ops[..k], key);
      forall j | i < j < |ops| ensures !SetsState(ops[j], key) {
        assert j < k ==> ops[..k][j] == ops[j];
      }
      hide Image;
    }
  }

  lemma EntryAfterUpdate(data: Data, partial: Data, name: string)
    requires Normal(data)
    ensures Image(data + partial).Some? <==> IsGood(partial)
    ensures Image(data + partial).Some? ==>
      Entry(Image(data + partial).value, name) == if name in partial then Some(Generic(partial[name])) else Entry(data, name)
  {
    ImageOfMerge(data, partial);
    ImageOfData(partial);
    hide Image, Normal, IsGood, Generic;
    if Image(partial).Some? {
      assert Entry(Image(partial).value, name) == EntrySet(SetData(StorageKey(0, 0, 0), partial), name);
    }
  }

  /**
   What the conversation has under a name is what the last operation that decides it wrote, in its generic form: an entry
   of a SetData or UpdateData, or nothing after a Clear or a SetData without it. Operations that fail decide nothing.
   */
  lemma {:induction false} EntryIsLastSet(ops: seq<Op>, key: StorageKey, name: string) returns (i: int)
    ensures -1 <= i < |ops| && forall j | i < j < |ops| :: !SetsEntry(ops[j], key, name)
    ensures i >= 0 ==> SetsEntry(ops[i], key, name)
    ensures Answer(ops, GetData(key)).Contents?
    ensures Entry(Answer(ops, GetData(key)).data, name) == if i >= 0 then EntrySet(ops[i], name) else None
  {
    i := -1;
    if ops != [] {
      var k := |ops| - 1;
      var before, op := ops[..k], ops[k];
      DataIsNormal(before, key);
      var data := Look(After(before), key).data;
      if op.SetData? {
        ImageOfData(op.data);
      } else if op.UpdateData? {
        EntryAfterUpdate(data, op.partial, name);
      }
      hide Image, IsGood, Generic;
      if SetsEntry(op, key, name) {
        return k;
      }
      i := EntryIsLastSet(before, key, name);
      forall j | i < j < |ops| ensures !SetsEntry(ops[j], key, name) {
        assert j < k ==> before[j] == ops[j];
      }
    }
  }

  /** Only data with something unmarshalable in it makes an operation fail, and then nothing changes. */
  lemma FailsExactly(ops: seq<Op>, op: Op)
    ensures Answer(ops, op).Failed? <==> (op.SetData? && !IsGood(op.data)) || (op.UpdateData? && !IsGood(op.partial))
    ensures Answer(ops, op).Failed? ==> After(ops + [op]) == After(ops)
    ensures op.UpdateData? && IsGood(op.partial) ==> Answer(ops, op) == Answer(ops + [op], GetData(op.key))
  {
    assert (ops + [op])[..|ops|] == ops;
    DataIsNormal(ops, op.key);
    if op.SetData? {
      ImageOfData(op.data);
    } else if op.UpdateData? {
      EntryAfterUpdate(Look(After(ops), op.key).data, op.partial, "");
    }
    hide Image, IsGood, Generic;
  }
}
