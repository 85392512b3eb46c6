/**
 JSON values and what a round trip through encoding/json makes of a Go value: the storages' data maps live in the
 image of this round trip (fsm.go, fsm_memory.go).
 */
module Json {
  import opened Options

  /** A Go value as a handler stores it. A channel or function cannot be marshalled. */
  datatype Value =
    | Nil
    | Bool(b: bool)
    | Int(i: int)
    | Float(f: real)
    | Str(s: string)
    | Slice(items: seq<Value>)
    | Map(entries: map<string, Value>)
    | Struct(fields: map<string, Value>)
    | Unmarshalable

  datatype Document =
    | Null
    | Boolean(b: bool)
    | Number(n: real)
    | Text(s: string)
    | Array(items: seq<Document>)
    | Object(members: map<string, Document>)

  function Marshal(v: Value): Option<Document>
    decreases v
  {
    match v
    case Nil => Some(Null)
    case Bool(b) => Some(Boolean(b))
    case Int(i) => Some(Number(i as real))
    case Float(f) => Some(Number(f))
    case Str(s) => Some(Text(s))
    case Slice(items) =>
      if forall k | 0 <= k < |items| :: Marshal(items[k]).Some?
      then Some(Array(seq(|items|, k requires 0 <= k < |items| => Marshal(items[k]).value)))
      else None
    case Map(entries) =>
      if forall k | k in entries :: Marshal(entries[k]).Some?
      then Some(Object(map k | k in entries :: Marshal(entries[k]).value))
      else None
    case Struct(fields) =>
      if forall k | k in fields :: Marshal(fields[k]).Some?
      then Some(Object(map k | k in fields :: Marshal(fields[k]).value))
      else None
    case Unmarshalable => None
  }

  /** Decoding into an interface: numbers become floats, objects become maps. */
  function Unmarshal(d: Document): Value
    decreases d
  {
    match d
    case Null => Nil
    case Boolean(b) => Bool(b)
    case Number(n) => Float(n)
    case Text(s) => Str(s)
    case Array(items) => Slice(seq(|items|, k requires 0 <= k < |items| => Unmarshal(items[k])))
    case Object(members) => Map(map k | k in members :: Unmarshal(members[k]))
  }

  lemma {:induction false} MarshalUnmarshal(d: Document)
    ensures Marshal(Unmarshal(d)) == Some(d)
    decreases d
  {
    match d
    case Array(items) =>
      forall k | 0 <= k < |items| ensures Marshal(Unmarshal(items[k])) == Some(items[k]) {
        MarshalUnmarshal(items[k]);
      }
      var v := Unmarshal(d);
      assert forall k | 0 <= k < |items| :: v.items[k] == Unmarshal(items[k]);
      assert forall k | 0 <= k < |items| :: Marshal(v.items[k]).Some?;
      assert Marshal(v).value.items == items;
    case Object(members) =>
      forall k | k in members ensures Marshal(Unmarshal(members[k])) == Some(members[k]) {
        MarshalUnmarshal(members[k]);
      }
      var v := Unmarshal(d);
      assert forall k | k in members :: v.entries[k] == Unmarshal(members[k]);
      assert forall k | k in members :: Marshal(v.entries[k]).Some?;
      assert Marshal(v).value.members == members;
    case _ =>
  }

  type Data = map<string, Value>

  function MarshalData(data: Data): Option<map<string, Document>> {
    if forall k | k in data :: Marshal(data[k]).Some?
    then Some(map k | k in data :: Marshal(data[k]).value)
    else None
  }

  function UnmarshalData(members: map<string, Document>): Data {
    map k | k in members :: Unmarshal(members[k])
  }

  /** The JSON image of a data map: what a JSON round trip makes of it; None when it cannot be marshalled. */
  function Image(data: Data): Option<Data> {
    match MarshalData(data)
    case None => None
    case Some(members) => Some(UnmarshalData(members))
  }

  /** Data that a JSON round trip leaves as it is, like all stored data. */
  predicate Normal(data: Data) {
    Image(data) == Some(data)
  }

  lemma MarshalUnmarshalData(members: map<string, Document>)
    ensures MarshalData(UnmarshalData(members)) == Some(members)
  {
    var data := UnmarshalData(members);
    forall k | k in members ensures Marshal(data[k]) == Some(members[k]) {
      MarshalUnmarshal(members[k]);
    }
    assert MarshalData(data).value == members;
  }

  /** The round trip is idempotent. */
  lemma ImageIdempotent(data: Data)
    requires Image(data).Some?
    ensures Image(Image(data).value) == Image(data)
  {
    MarshalUnmarshalData(MarshalData(data).value);
  }

  lemma ImageEmpty()
    ensures Image(map[]) == Some(map[])
  {
  }

  /** One value's JSON image, if it can be marshalled. */
  function ImageOf(v: Value): Value {
    if Marshal(v).Some? then Unmarshal(Marshal(v).value) else v
  }

  function ImageMap(data: Data): Data {
    map k | k in data :: ImageOf(data[k])
  }

  predicate AllMarshal(data: Data) {
    forall k | k in data :: Marshal(data[k]).Some?
  }

  lemma ImageByEntry(data: Data)
    ensures Image(data) == if AllMarshal(data) then Some(ImageMap(data)) else None
  {
    if AllMarshal(data) {
      assert UnmarshalData(MarshalData(data).value) == ImageMap(data);
    }
  }

  /**
   Merging into normal data: the result can be marshalled exactly when the change can, its image is the data merged
   with the change's image, and it is normal exactly when the change is.
   */
  lemma ImageOfMerge(data: Data, partial: Data)
    requires Normal(data)
    ensures Image(data + partial)
            == if Image(partial).Some? then Some(data + Image(partial).value) else None
    ensures Normal(data + partial) <==> Normal(partial)
  {
    ImageByEntry(data);
    ImageByEntry(partial);
    ImageByEntry(data + partial);
    hide Image;
    MergeEntries(data, partial);
    hide ImageMap, AllMarshal;
    if Image(partial).Some? {
      SameMerge(data, partial, Image(partial).value);
    }
  }

  lemma MergeEntries(data: Data, partial: Data)
    requires AllMarshal(data) && ImageMap(data) == data
    ensures AllMarshal(data + partial) <==> AllMarshal(partial)
    ensures ImageMap(data + partial) == data + ImageMap(partial)
    ensures ImageMap(partial).Keys == partial.Keys
  {
    hide Marshal, ImageOf;
    var merged := data + partial;
    assert forall k | k in partial :: merged[k] == partial[k];
    assert forall k | k in merged && k !in partial :: merged[k] == data[k] && ImageOf(data[k]) == ImageMap(data)[k];
  }

  lemma SameMerge(data: Data, partial: Data, image: Data)
    requires image.Keys == partial.Keys
    ensures data + partial == data + image <==> partial == image
  {
    if data + partial == data + image {
      assert forall k | k in partial :: (data + partial)[k] == partial[k] && (data + image)[k] == image[k];
    }
  }

  // --------------------------------------------------------------------------
  // What a round trip makes of a value

  predicate HasNoneUnmarshalable(v: Value)
    decreases v
  {
    match v
    case Unmarshalable => false
    case Slice(items) => forall k | 0 <= k < |items| :: HasNoneUnmarshalable(items[k])
    case Map(entries) => forall k | k in entries :: HasNoneUnmarshalable(entries[k])
    case Struct(fields) => forall k | k in fields :: HasNoneUnmarshalable(fields[k])
    case _ => true
  }

  /** The value with its integers as floats and its structs as maps, all the way down. */
  function Generic(v: Value): Value
    decreases v
  {
    match v
    case Int(i) => Float(i as real)
    case Slice(items) => Slice(seq(|items|, k requires 0 <= k < |items| => Generic(items[k])))
    case Map(entries) => Map(map k | k in entries :: Generic(entries[k]))
    case Struct(fields) => Map(map k | k in fields :: Generic(fields[k]))
    case _ => v
  }

  lemma {:induction false} MarshalsExactly(v: Value)
    ensures Marshal(v).Some? <==> HasNoneUnmarshalable(v)
    decreases v
  {
    match v
    case Slice(items) =>
      forall k | 0 <= k < |items| ensures Marshal(items[k]).Some? <==> HasNoneUnmarshalable(items[k]) {
        MarshalsExactly(items[k]);
      }
    case Map(entries) =>
      forall k | k in entries ensures Marshal(entries[k]).Some? <==> HasNoneUnmarshalable(entries[k]) {
        MarshalsExactly(entries[k]);
      }
    case Struct(fields) =>
      forall k | k in fields ensures Marshal(fields[k]).Some? <==> HasNoneUnmarshalable(fields[k]) {
        MarshalsExactly(fields[k]);
      }
    case _ =>
  }

  /** Exactly the values with nothing unmarshalable in them can be marshalled, and come back in their generic form. */
  lemma {:induction false} ImageExactly(v: Value)
    ensures Marshal(v).Some? <==> HasNoneUnmarshalable(v)
    ensures Marshal(v).Some? ==> Unmarshal(Marshal(v).value) == Generic(v)
    decreases v
  {
    MarshalsExactly(v);
    if Marshal(v).Some? {
      match v
      case Slice(items) =>
        forall k | 0 <= k < |items| ensures Unmarshal(Marshal(items[k]).value) == Generic(items[k]) {
          ImageExactly(items[k]);
        }
        assert Unmarshal(Marshal(v).value).items == Generic(v).items;
      case Map(entries) =>
        forall k | k in entries ensures Unmarshal(Marshal(entries[k]).value) == Generic(entries[k]) {
          ImageExactly(entries[k]);
        }
        assert Unmarshal(Marshal(v).value).entries == Generic(v).entries;
      case Struct(fields) =>
        forall k | k in fields ensures Unmarshal(Marshal(fields[k]).value) == Generic(fields[k]) {
          ImageExactly(fields[k]);
        }
        assert Unmarshal(Marshal(v).value).entries == Generic(v).entries;
      case _ =>
    }
  }
}
