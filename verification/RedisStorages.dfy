/**
 The Redis storage (storage/redis/storage.go) over a server that maps strings to values, without expiry; proved to
 be the abstract storage in what it holds, and in what it answers except for UpdateData, whose exact reply is stated.
 */
module RedisStorages {
  import opened Options
  import opened Strings
  import opened Decimal
  import opened Json
  import opened Conversations

  // --------------------------------------------------------------------------
  // Keys

  function KeyBody(key: StorageKey, suffix: string): string {
    IntString(key.chatID) + [':'] + (IntString(key.userID) + [':'] + (IntString(key.threadID) + [':'] + suffix))
  }

  function StateKey(prefix: string, key: StorageKey): string {
    prefix + [':'] + KeyBody(key, "state")
  }

  function DataKey(prefix: string, key: StorageKey): string {
    prefix + [':'] + KeyBody(key, "data")
  }

  lemma KeyBodyInjective(j: StorageKey, a: string, k: StorageKey, b: string)
    requires KeyBody(j, a) == KeyBody(k, b)
    ensures j == k && a == b
  {
    IntStringLacks(j.chatID, ':');
    IntStringLacks(k.chatID, ':');
    IntStringLacks(j.userID, ':');
    IntStringLacks(k.userID, ':');
    IntStringLacks(j.threadID, ':');
    IntStringLacks(k.threadID, ':');
    hide IntString;
    var j1, k1 := IntString(j.threadID) + [':'] + a, IntString(k.threadID) + [':'] + b;
    FirstPartUnique(IntString(j.chatID), IntString(j.userID) + [':'] + j1,
                    IntString(k.chatID), IntString(k.userID) + [':'] + k1, ':');
    FirstPartUnique(IntString(j.userID), j1, IntString(k.userID), k1, ':');
    FirstPartUnique(IntString(j.threadID), a, IntString(k.threadID), b, ':');
    IntStringInjective(j.chatID, k.chatID);
    IntStringInjective(j.userID, k.userID);
    IntStringInjective(j.threadID, k.threadID);
  }

  /**
   Under one prefix, whatever it contains, distinct conversations have distinct keys, and no state key is a data key.
   */
  lemma KeysAreDistinct(prefix: string, j: StorageKey, k: StorageKey)
    ensures StateKey(prefix, j) == StateKey(prefix, k) ==> j == k
    ensures DataKey(prefix, j) == DataKey(prefix, k) ==> j == k
    ensures StateKey(prefix, j) != DataKey(prefix, k)
  {
    hide KeyBody;
    var n := |prefix| + 1;
    assert StateKey(prefix, j)[n..] == KeyBody(j, "state") && StateKey(prefix, k)[n..] == KeyBody(k, "state");
    assert DataKey(prefix, j)[n..] == KeyBody(j, "data") && DataKey(prefix, k)[n..] == KeyBody(k, "data");
    if KeyBody(j, "state") == KeyBody(k, "state") {
      KeyBodyInjective(j, "state", k, "state");
    }
    if KeyBody(j, "data") == KeyBody(k, "data") {
      KeyBodyInjective(j, "data", k, "data");
    }
    assert "state"[0] != "data"[0];
    if KeyBody(j, "state") == KeyBody(k, "data") {
      KeyBodyInjective(j, "state", k, "data");
      assert false;
    }
  }

  /** The layout of both keys: the prefix, the conversation's three numbers and what is stored, between colons. */
  lemma KeysAreLaidOut(prefix: string, chatID: int, userID: int, threadID: int)
    ensures var key := StorageKey(chatID, userID, threadID);
            var start := prefix + ":" + IntString(chatID) + ":" + IntString(userID) + ":" + IntString(threadID);
            StateKey(prefix, key) == start + ":state" && DataKey(prefix, key) == start + ":data"
  {
    hide IntString;
    var key := StorageKey(chatID, userID, threadID);
    var start := prefix + ":" + IntString(chatID) + ":" + IntString(userID) + ":" + IntString(threadID);
    assert forall suffix :: prefix + [':'] + KeyBody(key, suffix) == start + ":" + suffix;
    assert start + ":" + "state" == start + ":state" && start + ":" + "data" == start + ":data";
  }

  // --------------------------------------------------------------------------
  // The storage

  /** What the server stores: the plain text of a state, or a JSON document. */
  datatype Stored = Plain(text: string) | Blob(members: map<string, Document>)

  type Server = map<string, Stored>

  /** The server's values for one conversation are the abstract storage's. */
  ghost predicate HoldsAt(prefix: string, server: Server, m: map<StorageKey, Conversation>, key: StorageKey) {
    var s, d := StateKey(prefix, key), DataKey(prefix, key);
    && (if s in server then server[s] == Plain(Look(m, key).state) else Look(m, key).state == NO_STATE)
    && (if d in server then server[d].Blob? && UnmarshalData(server[d].members) == Look(m, key).data
        else Look(m, key).data == map[])
  }

  ghost predicate Holds(prefix: string, server: Server, m: map<StorageKey, Conversation>) {
    forall key :: HoldsAt(prefix, server, m, key)
  }

  /** A change of one conversation's two keys leaves every other conversation alone. */
  lemma OnlyOneConversation(prefix: string, server: Server, server': Server,
                            m: map<StorageKey, Conversation>, m': map<StorageKey, Conversation>, key: StorageKey)
    requires Holds(prefix, server, m) && HoldsAt(prefix, server', m', key)
    requires server' - {StateKey(prefix, key), DataKey(prefix, key)}
             == server - {StateKey(prefix, key), DataKey(prefix, key)}
    requires forall k | k != key :: Look(m', k) == Look(m, k)
    ensures Holds(prefix, server', m')
  {
    hide StateKey, DataKey, Look;
    var touched := {StateKey(prefix, key), DataKey(prefix, key)};
    forall k | k != key ensures HoldsAt(prefix, server', m', k) {
      assert HoldsAt(prefix, server, m, k);
      KeysAreDistinct(prefix, k, key);
      KeysAreDistinct(prefix, key, k);
      forall x | x !in touched ensures (x in server' <==> x in server) && (x in server ==> server'[x] == server[x]) {
        assert x in server' - touched <==> x in server - touched;
        assert x in server ==> (server' - touched)[x] == (server - touched)[x];
      }
    }
  }

  class RedisStorage {
    const prefix: string
    var server: Server

    constructor (prefix: string)
      ensures Holds(this.prefix, server, map[]) && this.prefix == prefix
    {
      this.prefix := prefix;
      server := map[];
    }

    method SetState(key: StorageKey, state: string, ghost m: map<StorageKey, Conversation>) returns (reply: Reply)
      requires Holds(prefix, server, m)
      modifies this
      ensures Holds(prefix, server, Step(m, Op.SetState(key, state)).0) && reply == Step(m, Op.SetState(key, state)).1
      ensures server == if state == "" then old(server) - {StateKey(prefix, key)}
                        else old(server)[StateKey(prefix, key) := Plain(state)]
    {
      ghost var before, m' := server, Step(m, Op.SetState(key, state)).0;
      KeysAreDistinct(prefix, key, key);
      hide StateKey, DataKey;
      assert HoldsAt(prefix, server, m, key);
      if state == NO_STATE {
        server := server - {StateKey(prefix, key)};
      } else {
        server := server[StateKey(prefix, key) := Plain(state)];
      }
      assert HoldsAt(prefix, server, m', key);
      OnlyOneConversation(prefix, before, server, m, m', key);
      reply := Done;
    }

    method GetState(key: StorageKey, ghost m: map<StorageKey, Conversation>) returns (reply: Reply)
      requires Holds(prefix, server, m)
      ensures Holds(prefix, server, Step(m, Op.GetState(key)).0) && reply == Step(m, Op.GetState(key)).1
    {
      assert HoldsAt(prefix, server, m, key);
      var stateKey := StateKey(prefix, key);
      if stateKey !in server {
        return Current(NO_STATE);
      }
      return Current(server[stateKey].text);
    }

    method SetData(key: StorageKey, data: Data, ghost m: map<StorageKey, Conversation>) returns (reply: Reply)
      requires Holds(prefix, server, m)
      modifies this
      ensures Holds(prefix, server, Step(m, Op.SetData(key, data)).0) && reply == Step(m, Op.SetData(key, data)).1
      ensures server - {DataKey(prefix, key)} == old(server) - {DataKey(prefix, key)}
    {
      var encoded := MarshalData(data);
      if encoded.None? {
        return Failed;
      }
      ghost var before, m' := server, Step(m, Op.SetData(key, data)).0;
      KeysAreDistinct(prefix, key, key);
      hide StateKey, DataKey;
      assert HoldsAt(prefix, server, m, key);
      server := server[DataKey(prefix, key) := Blob(encoded.value)];
      assert HoldsAt(prefix, server, m', key);
      OnlyOneConversation(prefix, before, server, m, m', key);
      reply := Done;
    }

    method GetData(key: StorageKey, ghost m: map<StorageKey, Conversation>) returns (reply: Reply)
      requires Holds(prefix, server, m)
      ensures Holds(prefix, server, Step(m, Op.GetData(key)).0) && reply == Step(m, Op.GetData(key)).1
    {
      assert HoldsAt(prefix, server, m, key);
      var dataKey := DataKey(prefix, key);
      if dataKey !in server {
        return Contents(map[]);
      }
      return Contents(UnmarshalData(server[dataKey].members));
    }

    /** Returns the merged data as it was before marshalling: only its JSON image is the abstract storage's answer. */
    method UpdateData(key: StorageKey, partial: Data, ghost m: map<StorageKey, Conversation>) returns (reply: Reply)
      requires Holds(prefix, server, m)
      modifies this
      ensures Holds(prefix, server, Step(m, Op.UpdateData(key, partial)).0)
      ensures reply == RedisReply(m, Op.UpdateData(key, partial))
    {
      var existing := GetData(key, m);
      var merged: Data := existing.data;
      merged := merged + partial;
      var stored := SetData(key, merged, m);
      return if stored == Failed then Failed else Contents(merged);
    }

    method Clear(key: StorageKey, ghost m: map<StorageKey, Conversation>) returns (reply: Reply)
      requires Holds(prefix, server, m)
      modifies this
      ensures Holds(prefix, server, Step(m, Op.Clear(key)).0) && reply == Step(m, Op.Clear(key)).1
      ensures server == old(server) - {StateKey(prefix, key), DataKey(prefix, key)}
    {
      ghost var before, m' := server, Step(m, Op.Clear(key)).0;
      hide StateKey, DataKey;
      server := server - {StateKey(prefix, key), DataKey(prefix, key)};
      assert HoldsAt(prefix, server, m', key);
      OnlyOneConversation(prefix, before, server, m, m', key);
      reply := Done;
    }
  }

  /** The abstract storage's reply, except that an update returns the merged data unnormalised. */
  function RedisReply(m: map<StorageKey, Conversation>, op: Op): Reply {
    var reply := Step(m, op).1;
    if op.UpdateData? && reply.Contents? then Contents(Look(m, op.key).data + op.partial) else reply
  }
}
