/**
 The two storages against each other: whatever operations a handler performs, the in-process storage answers as the
 abstract storage does, and the Redis storage the same up to the JSON image of what an update returns. When the two
 answers are identical is stated exactly.
 */
module StorageAgreement {
  import opened Options
  import opened Json
  import opened Conversations
  import opened MemoryStorages
  import opened RedisStorages

  method OnMemory(s: MemoryStorage, op: Op, ghost m: map<StorageKey, Conversation>) returns (reply: Reply)
    requires s.Refines(m)
    modifies s
    ensures s.Refines(Step(m, op).0) && reply == Step(m, op).1
  {
    match op
    case SetState(key, state) => reply := s.SetState(key, state, m);
    case GetState(key) => reply := s.GetState(key, m);
    case SetData(key, data) => reply := s.SetData(key, data, m);
    case GetData(key) => reply := s.GetData(key, m);
    case UpdateData(key, partial) => reply := s.UpdateData(key, partial, m);
    case Clear(key) => reply := s.Clear(key, m);
  }

  method OnRedis(s: RedisStorage, op: Op, ghost m: map<StorageKey, Conversation>) returns (reply: Reply)
    requires Holds(s.prefix, s.server, m)
    modifies s
    ensures Holds(s.prefix, s.server, Step(m, op).0) && reply == RedisReply(m, op)
  {
    hide Holds;
    match op
    case SetState(key, state) => reply := s.SetState(key, state, m);
    case GetState(key) => reply := s.GetState(key, m);
    case SetData(key, data) => reply := s.SetData(key, data, m);
    case GetData(key) => reply := s.GetData(key, m);
    case UpdateData(key, partial) => reply := s.UpdateData(key, partial, m);
    case Clear(key) => reply := s.Clear(key, m);
  }

  // --------------------------------------------------------------------------
  // When an update gets the same reply

  /** Operations whose replies are identical: all but updates with data that the JSON round trip changes. */
  predicate IsAnsweredAlike(op: Op) {
    op.UpdateData? && Image(op.partial).Some? ==> Image(op.partial) == Some(op.partial)
  }

  /** Two replies to an operation agree up to the JSON image, and are identical if IsAnsweredAlike says so and only then. */
  ghost predicate Agree(op: Op, redis: Reply, memory: Reply) {
    SameReply(redis, memory) && (redis == memory <==> IsAnsweredAlike(op))
  }

  /** The two replies to an operation agree up to the JSON image, and are identical exactly when IsAnsweredAlike says. */
  lemma RepliesAgreeExactly(m: map<StorageKey, Conversation>, op: Op)
    requires Normal(Look(m, op.key).data)
    ensures Agree(op, RedisReply(m, op), Step(m, op).1)
  {
    var data := Look(m, op.key).data;
    if op.UpdateData? {
      ImageOfMerge(data, op.partial);
      if Image(data + op.partial).Some? {
        ImageIdempotent(data + op.partial);
      }
    }
  }

  /** A handler stores the integer 1: Redis returns it as it is, the in-process storage as JSON's number. */
  lemma UpdateRepliesDiffer(key: StorageKey)
    ensures var op := Op.UpdateData(key, map["n" := Value.Int(1)]);
            && RedisReply(map[], op) == Contents(map["n" := Value.Int(1)])
            && Step(map[], op).1 == Contents(map["n" := Value.Float(1.0)])
            && RedisReply(map[], op) != Step(map[], op).1
  {
    var partial: Data := map["n" := Value.Int(1)];
    assert map[] + partial == partial;
    assert Marshal(partial["n"]) == Some(Document.Number(1.0));
    assert forall k | k in partial :: k == "n";
    var members := MarshalData(partial).value;
    assert members["n"] == Document.Number(1.0) && members.Keys == {"n"};
    var image := UnmarshalData(members);
    assert image["n"] == Value.Float(1.0) && image.Keys == {"n"};
    assert image == map["n" := Value.Float(1.0)];
  }

  /** Equal, data compared by its JSON image. */
  ghost predicate SameReply(a: Reply, b: Reply) {
    if a.Contents? && b.Contents? then Image(a.data).Some? && Image(a.data) == Image(b.data) else a == b
  }

  // --------------------------------------------------------------------------
  // Whole sequences of operations

  lemma {:induction false} RepliesSnoc(m: map<StorageKey, Conversation>, ops: seq<Op>, op: Op)
    ensures Replies(m, ops + [op]).0 == Step(Replies(m, ops).0, op).0
    ensures Replies(m, ops + [op]).1 == Replies(m, ops).1 + [Step(Replies(m, ops).0, op).1]
    decreases |ops|
  {
    hide Step;
    if ops == [] {
      assert ops + [op] == [op];
      assert [op][1..] == [];
    } else {
      assert (ops + [op])[1..] == ops[1..] + [op];
      RepliesSnoc(Step(m, ops[0]).0, ops[1..], op);
    }
  }

  /** Every data map an abstract storage holds is its own JSON image. */
  lemma HeldIsNormal(s: MemoryStorage, m: map<StorageKey, Conversation>, key: StorageKey)
    requires s.Refines(m)
    ensures Normal(Look(m, key).data)
  {
    assert Held(s.entries, key) == Look(m, key);
    ImageEmpty();
  }

  /** Any sequence of operations on two fresh storages. */
  method Compare(prefix: string, ops: seq<Op>) returns (memory: seq<Reply>, redis: seq<Reply>)
    ensures memory == Replies(map[], ops).1
    ensures |memory| == |redis| == |ops|
    ensures forall i | 0 <= i < |ops| :: Agree(ops[i], redis[i], memory[i])
  {
    hide Agree, Holds, Step, RedisReply, Look, Normal;
    var a := new MemoryStorage();
    var b := new RedisStorage(prefix);
    memory, redis := [], [];
    for i := 0 to |ops|
      invariant a.Refines(Replies(map[], ops[..i]).0) && Holds(b.prefix, b.server, Replies(map[], ops[..i]).0)
      invariant memory == Replies(map[], ops[..i]).1 && |redis| == |memory| == i
      invariant forall j | 0 <= j < i :: Agree(ops[j], redis[j], memory[j])
    {
      ghost var m := Replies(map[], ops[..i]).0;
      HeldIsNormal(a, m, ops[i].key);
      RepliesAgreeExactly(m, ops[i]);
      RepliesSnoc(map[], ops[..i], ops[i]);
      assert ops[..i + 1] == ops[..i] + [ops[i]];
      var x := OnMemory(a, ops[i], m);
      var y := OnRedis(b, ops[i], m);
      memory, redis := memory + [x], redis + [y];
    }
    assert ops[..|ops|] == ops;
  }
}
