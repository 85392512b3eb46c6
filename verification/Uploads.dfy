/**
 Local files inside a request (internal/api/client.go): containsUpload finds them anywhere in a value tree, and
 hoistUploads moves them out into parts of their own, leaving references behind. Reflection over Go values becomes a
 datatype of value trees.
 */
module Uploads {
  import opened Decimal

  datatype InputFile = Upload(filename: string, content: seq<bv8>) | Reference(text: string)

  /**
   A Go value as reflection shows it. Nil is the nil pointer, interface or slice. Other is a value neither function
   looks into (strings, numbers, maps, …), with the text its type's zero value has. Hidden stands in a struct for a
   field that is not exported.
   */
  datatype Value =
    | Nil
    | Other(text: string, zeroText: string)
    | File(file: InputFile)
    | Pointer(target: Value)
    | Interface(dynamic: Value)
    | Struct(fields: seq<Value>)
    | Hidden(field: Value)
    | Slice(elements: seq<Value>)
    | Array(items: seq<Value>)

  datatype HoistedUpload = HoistedUpload(name: string, file: InputFile)

  // --------------------------------------------------------------------------
  // What the operations mean

  /**
   The uploads in v, left to right, as containsUpload looks for them: through pointers, interfaces, exported struct
   fields, slices and arrays, but not through maps.
   */
  function Visible(v: Value): seq<InputFile> {
    match v
    case File(f) => if f.Upload? then [f] else []
    case Pointer(t) => Visible(t)
    case Interface(t) => Visible(t)
    case Struct(vs) => VisibleIn(vs)
    case Slice(vs) => VisibleIn(vs)
    case Array(vs) => VisibleIn(vs)
    case _ => []
  }

  function VisibleIn(vs: seq<Value>): seq<InputFile> {
    if vs == [] then [] else VisibleIn(vs[..|vs| - 1]) + Visible(vs[|vs| - 1])
  }

  /** Those of them outside every array. */
  function Outside(v: Value): seq<InputFile> {
    match v
    case File(f) => if f.Upload? then [f] else []
    case Pointer(t) => Outside(t)
    case Interface(t) => Outside(t)
    case Struct(vs) => OutsideIn(vs)
    case Slice(vs) => OutsideIn(vs)
    case _ => []
  }

  function OutsideIn(vs: seq<Value>): seq<InputFile> {
    if vs == [] then [] else OutsideIn(vs[..|vs| - 1]) + Outside(vs[|vs| - 1])
  }

  /** No array, wherever it is, holds an upload. */
  predicate ArraysHoldNone(v: Value) {
    match v
    case Pointer(t) => ArraysHoldNone(t)
    case Interface(t) => ArraysHoldNone(t)
    case Struct(vs) => forall w | w in vs :: ArraysHoldNone(w)
    case Slice(vs) => forall w | w in vs :: ArraysHoldNone(w)
    case Array(vs) => forall w | w in vs :: Visible(w) == []
    case _ => true
  }

  /** The zero value of v's type. */
  function Zero(v: Value): Value {
    match v
    case Other(_, zero) => Other(zero, zero)
    case File(_) => File(Reference(""))
    case Struct(vs) => Struct(ZeroIn(vs))
    case Hidden(w) => Hidden(Zero(w))
    case Array(vs) => Array(ZeroIn(vs))
    case _ => Nil
  }

  function ZeroIn(vs: seq<Value>): seq<Value> {
    if vs == [] then [] else ZeroIn(vs[..|vs| - 1]) + [Zero(vs[|vs| - 1])]
  }

  function UploadName(k: nat): string {
    "golagram_upload_" + IntString(k)
  }

  function Attach(name: string): string {
    "attach://" + name
  }

  /** v with its uploads outside arrays turned into references numbered from n, and its hidden fields lost. */
  function Hoisted(v: Value, n: nat): Value {
    match v
    case File(f) => if f.Upload? then File(Reference(Attach(UploadName(n)))) else v
    case Pointer(t) => Pointer(Hoisted(t, n))
    case Interface(t) => Interface(Hoisted(t, n))
    case Struct(vs) => Struct(HoistedIn(vs, n))
    case Hidden(w) => Hidden(Zero(w))
    case Slice(vs) => Slice(HoistedIn(vs, n))
    case _ => v
  }

  function HoistedIn(vs: seq<Value>, n: nat): (r: seq<Value>)
    ensures |r| == |vs|
  {
    if vs == [] then []
    else
      var k := |vs| - 1;
      HoistedIn(vs[..k], n) + [Hoisted(vs[k], n + |OutsideIn(vs[..k])|)]
  }

  /** The parts for some files, numbered from n. */
  function Parts(files: seq<InputFile>, n: nat): (r: seq<HoistedUpload>) {
    seq(|files|, k requires 0 <= k < |files| => HoistedUpload(UploadName(n + k), files[k]))
  }

  lemma PartsOfTwo(s: seq<InputFile>, t: seq<InputFile>, n: nat)
    ensures Parts(s + t, n) == Parts(s, n) + Parts(t, n + |s|)
  {
  }

  // --------------------------------------------------------------------------
  // The operations

  method ContainsUpload(v: Value) returns (found: bool)
    ensures found <==> Visible(v) != []
    decreases v
  {
    match v
    case File(f) => return f.Upload?;
    case Pointer(t) => found := ContainsUpload(t);
    case Interface(t) => found := ContainsUpload(t);
    case Struct(vs) => found := AnyContainsUpload(vs);
    case Slice(vs) => found := AnyContainsUpload(vs);
    case Array(vs) => found := AnyContainsUpload(vs);
    case _ => return false;
  }

  method AnyContainsUpload(vs: seq<Value>) returns (found: bool)
    ensures found <==> VisibleIn(vs) != []
    decreases vs
  {
    for i := 0 to |vs|
      invariant VisibleIn(vs[..i]) == []
    {
      assert vs[..i + 1][..i] == vs[..i];
      var here := ContainsUpload(vs[i]);
      if here {
        VisibleInPrefix(vs, i + 1);
        return true;
      }
    }
    assert vs[..|vs|] == vs;
    return false;
  }

  lemma {:induction false} VisibleInPrefix(vs: seq<Value>, i: nat)
    requires i <= |vs| && VisibleIn(vs[..i]) != []
    ensures VisibleIn(vs) != []
    decreases |vs| - i
  {
    if i == |vs| {
      assert vs[..i] == vs;
    } else {
      assert vs[..i + 1][..i] == vs[..i];
      VisibleInPrefix(vs, i + 1);
    }
  }

  /** The list every hoistUploads of one request appends to. */
  class UploadList {
    var items: seq<HoistedUpload>

    constructor ()
      ensures items == []
    {
      items := [];
    }
  }

  method HoistUploads(v: Value, list: UploadList) returns (r: Value)
    modifies list
    ensures list.items == old(list.items) + Parts(Outside(v), |old(list.items)|)
    ensures r == Hoisted(v, |old(list.items)|)
    decreases v
  {
    match v
    case File(f) =>
      if !f.Upload? {
        return v;
      }
      var name := UploadName(|list.items|);
      list.items := list.items + [HoistedUpload(name, f)];
      return File(Reference(Attach(name)));
    case Pointer(t) =>
      var inner := HoistUploads(t, list);
      return Pointer(inner);
    case Interface(t) =>
      var inner := HoistUploads(t, list);
      return Interface(inner);
    case Struct(vs) =>
      var fields := HoistEach(vs, list);
      return Struct(fields);
    case Hidden(w) => return Hidden(Zero(w));
    case Slice(vs) =>
      var elements := HoistEach(vs, list);
      return Slice(elements);
    case _ => return v;
  }

  method HoistEach(vs: seq<Value>, list: UploadList) returns (r: seq<Value>)
    modifies list
    ensures list.items == old(list.items) + Parts(OutsideIn(vs), |old(list.items)|)
    ensures r == HoistedIn(vs, |old(list.items)|)
    decreases vs
  {
    ghost var n := |list.items|;
    r := [];
    for i := 0 to |vs|
      invariant list.items == old(list.items) + Parts(OutsideIn(vs[..i]), n)
      invariant r == HoistedIn(vs[..i], n)
    {
      assert vs[..i + 1][..i] == vs[..i];
      var w := HoistUploads(vs[i], list);
      PartsOfTwo(OutsideIn(vs[..i]), Outside(vs[i]), n);
      r := r + [w];
    }
    assert vs[..|vs|] == vs;
  }

  // --------------------------------------------------------------------------
  // Names and references

  /** The references in r that stand where v has an upload, left to right. */
  function ReferencesMade(v: Value, r: Value): seq<string> {
    match v
    case File(f) => if f.Upload? && r.File? && r.file.Reference? then [r.file.text] else []
    case Pointer(t) => if r.Pointer? then ReferencesMade(t, r.target) else []
    case Interface(t) => if r.Interface? then ReferencesMade(t, r.dynamic) else []
    case Struct(vs) => if r.Struct? then ReferencesMadeIn(vs, r.fields) else []
    case Slice(vs) => if r.Slice? then ReferencesMadeIn(vs, r.elements) else []
    case _ => []
  }

  function ReferencesMadeIn(vs: seq<Value>, rs: seq<Value>): seq<string> {
    if vs == [] || |rs| != |vs| then []
    else
      var k := |vs| - 1;
      ReferencesMadeIn(vs[..k], rs[..k]) + ReferencesMade(vs[k], rs[k])
  }

  function References(count: nat, n: nat): seq<string> {
    seq(count, k requires 0 <= k < count => "attach://golagram_upload_" + IntString(n + k))
  }

  lemma OneReference(n: nat)
    ensures References(1, n) == ["attach://golagram_upload_" + IntString(n)] && Attach(UploadName(n)) == References(1, n)[0]
  {
    hide IntString;
  }

  lemma MoreReferences(a: nat, b: nat, n: nat)
    ensures References(a + b, n) == References(a, n) + References(b, n + a)
  {
    hide IntString;
  }

  lemma {:induction false} HoistMakesReferences(v: Value, n: nat)
    ensures ReferencesMade(v, Hoisted(v, n)) == References(|Outside(v)|, n)
    decreases v
  {
    hide References;
    match v
    case File(_) =>
      OneReference(n);
      NoReferences(n);
    case Pointer(t) => HoistMakesReferences(t, n);
    case Interface(t) => HoistMakesReferences(t, n);
    case Struct(vs) => HoistMakesReferencesIn(vs, n);
    case Slice(vs) => HoistMakesReferencesIn(vs, n);
    case _ => NoReferences(n);
  }

  lemma NoReferences(n: nat)
    ensures References(0, n) == []
  {
  }

  lemma {:induction false} HoistMakesReferencesIn(vs: seq<Value>, n: nat)
    ensures ReferencesMadeIn(vs, HoistedIn(vs, n)) == References(|OutsideIn(vs)|, n)
    decreases vs
  {
    hide References, Hoisted, ReferencesMade, Outside;
    if vs == [] {
      NoReferences(n);
    } else {
      var k := |vs| - 1;
      HoistMakesReferencesIn(vs[..k], n);
      HoistMakesReferences(vs[k], n + |OutsideIn(vs[..k])|);
      MoreReferences(|OutsideIn(vs[..k])|, |Outside(vs[k])|, n);
      assert HoistedIn(vs, n)[..k] == HoistedIn(vs[..k], n);
    }
  }

  /**
   With n parts in the list already, the k-th upload becomes the part golagram_upload_(n + k), and a reference to that
   name under attach:// stands in its place.
   */
  lemma PartsAndReferencesAgree(v: Value, n: nat)
    ensures ReferencesMade(v, Hoisted(v, n)) == References(|Outside(v)|, n)
    ensures forall k | 0 <= k < |Outside(v)| ::
      Parts(Outside(v), n)[k] == HoistedUpload("golagram_upload_" + IntString(n + k), Outside(v)[k])
  {
    HoistMakesReferences(v, n);
    hide IntString, Outside;
    forall k | 0 <= k < |Outside(v)|
      ensures Parts(Outside(v), n)[k] == HoistedUpload("golagram_upload_" + IntString(n + k), Outside(v)[k])
    {
      assert UploadName(n + k) == "golagram_upload_" + IntString(n + k);
    }
  }

  // --------------------------------------------------------------------------
  // What is left behind

  /** The uploads that stay are those in arrays. */
  lemma {:induction false} HoistKeepsArrayUploads(v: Value, n: nat)
    ensures |Visible(v)| == |Outside(v)| + |Visible(Hoisted(v, n))|
    decreases v
  {
    match v
    case Pointer(t) => HoistKeepsArrayUploads(t, n);
    case Interface(t) => HoistKeepsArrayUploads(t, n);
    case Struct(vs) => HoistKeepsArrayUploadsIn(vs, n);
    case Slice(vs) => HoistKeepsArrayUploadsIn(vs, n);
    case _ =>
  }

  lemma {:induction false} HoistKeepsArrayUploadsIn(vs: seq<Value>, n: nat)
    ensures |VisibleIn(vs)| == |OutsideIn(vs)| + |VisibleIn(HoistedIn(vs, n))|
    decreases vs
  {
    if vs != [] {
      var k := |vs| - 1;
      HoistKeepsArrayUploadsIn(vs[..k], n);
      HoistKeepsArrayUploads(vs[k], n + |OutsideIn(vs[..k])|);
      assert HoistedIn(vs, n)[..k] == HoistedIn(vs[..k], n);
    }
  }

  lemma {:induction false} VisibleIsOutsideExactly(v: Value)
    ensures ArraysHoldNone(v) <==> |Visible(v)| == |Outside(v)|
    ensures |Visible(v)| >= |Outside(v)|
    ensures ArraysHoldNone(v) ==> Visible(v) == Outside(v)
    decreases v
  {
    match v
    case Pointer(t) => VisibleIsOutsideExactly(t);
    case Interface(t) => VisibleIsOutsideExactly(t);
    case Struct(vs) => VisibleInIsOutsideExactly(vs);
    case Slice(vs) => VisibleInIsOutsideExactly(vs);
    case Array(vs) => NoneVisibleIn(vs);
    case _ =>
  }

  lemma {:induction false} VisibleInIsOutsideExactly(vs: seq<Value>)
    ensures (forall w | w in vs :: ArraysHoldNone(w)) <==> |VisibleIn(vs)| == |OutsideIn(vs)|
    ensures |VisibleIn(vs)| >= |OutsideIn(vs)|
    ensures (forall w | w in vs :: ArraysHoldNone(w)) ==> VisibleIn(vs) == OutsideIn(vs)
    decreases vs
  {
    if vs != [] {
      var k := |vs| - 1;
      VisibleInIsOutsideExactly(vs[..k]);
      VisibleIsOutsideExactly(vs[k]);
      assert vs == vs[..k] + [vs[k]];
    }
  }

  lemma {:induction false} NoneVisibleIn(vs: seq<Value>)
    ensures (forall w | w in vs :: Visible(w) == []) <==> VisibleIn(vs) == []
  {
    if vs != [] {
      var k := |vs| - 1;
      NoneVisibleIn(vs[..k]);
      InAllButLast(vs);
      assert |VisibleIn(vs)| == |VisibleIn(vs[..k])| + |Visible(vs[k])|;
      hide VisibleIn, Visible;
    }
  }

  /**
   hoistUploads leaves no upload behind, and then appends exactly the visible ones in order, if and only if no array
   holds one.
   */
  lemma HoistEmptiesExactly(v: Value, n: nat)
    ensures Visible(Hoisted(v, n)) == [] <==> ArraysHoldNone(v)
    ensures Outside(v) == Visible(v) <==> ArraysHoldNone(v)
  {
    HoistKeepsArrayUploads(v, n);
    VisibleIsOutsideExactly(v);
  }

  /** A file in an unexported field is lost, whatever it is: the copy has the empty reference there. */
  lemma HiddenFileIsLost(f: InputFile, n: nat)
    ensures Hoisted(Hidden(File(f)), n) == Hidden(File(Reference("")))
  {
  }

  /** An upload in an array is found by containsUpload and left where it is by hoistUploads. */
  lemma ArrayUploadIsMissed(n: nat)
    ensures var v := Array([File(Upload("a.png", []))]);
            Visible(v) != [] && Hoisted(v, n) == v && Outside(v) == []
  {
    var f := File(Upload("a.png", []));
    assert [f][..0] == [];
    assert VisibleIn([f]) == VisibleIn([]) + Visible(f);
  }

  // --------------------------------------------------------------------------
  // The shape is kept

  /** w is v except that uploads outside arrays became references and hidden fields became zero. */
  predicate SameShape(v: Value, w: Value) {
    match v
    case File(f) => w.File? && (if f.Upload? then w.file.Reference? else w == v)
    case Pointer(t) => w.Pointer? && SameShape(t, w.target)
    case Interface(t) => w.Interface? && SameShape(t, w.dynamic)
    case Struct(vs) =>
      w.Struct? && |vs| == |w.fields| && forall i | 0 <= i < |vs| :: SameShape(vs[i], w.fields[i])
    case Hidden(x) => w == Hidden(Zero(x))
    case Slice(vs) =>
      w.Slice? && |vs| == |w.elements| && forall i | 0 <= i < |vs| :: SameShape(vs[i], w.elements[i])
    case _ => w == v
  }

  lemma {:induction false} HoistKeepsShape(v: Value, n: nat)
    ensures SameShape(v, Hoisted(v, n))
    decreases v
  {
    match v
    case Pointer(t) => HoistKeepsShape(t, n);
    case Interface(t) => HoistKeepsShape(t, n);
    case Struct(vs) => HoistInKeepsShape(vs, n);
    case Slice(vs) => HoistInKeepsShape(vs, n);
    case _ =>
  }

  lemma {:induction false} HoistInKeepsShape(vs: seq<Value>, n: nat)
    ensures forall i | 0 <= i < |vs| :: SameShape(vs[i], HoistedIn(vs, n)[i])
    decreases vs
  {
    if vs != [] {
      var k := |vs| - 1;
      HoistInKeepsShape(vs[..k], n);
      HoistKeepsShape(vs[k], n + |OutsideIn(vs[..k])|);
    }
  }

  // --------------------------------------------------------------------------
  // Names

  /** A list that calls of hoistUploads built: its parts are numbered from 0. */
  ghost predicate Numbered(parts: seq<HoistedUpload>) {
    forall k | 0 <= k < |parts| :: parts[k].name == UploadName(k) && parts[k].file.Upload?
  }

  lemma UploadNamesAreDistinct(j: nat, k: nat)
    requires Attach(UploadName(j)) == Attach(UploadName(k))
    ensures j == k
  {
    var a, b := UploadName(j), UploadName(k);
    assert Attach(a)[|"attach://"|..] == a && Attach(b)[|"attach://"|..] == b;
    assert a[|"golagram_upload_"|..] == IntString(j) && b[|"golagram_upload_"|..] == IntString(k);
    IntStringInjective(j, k);
  }

  /** Hoisting another field goes on numbering the shared list, and its names are pairwise distinct. */
  lemma PartsStayNumbered(parts: seq<HoistedUpload>, v: Value)
    requires Numbered(parts)
    ensures var all := parts + Parts(Outside(v), |parts|);
            Numbered(all) && forall i, j | 0 <= i < j < |all| :: all[i].name != all[j].name
  {
    OutsideAreUploads(v);
    var all := parts + Parts(Outside(v), |parts|);
    hide Outside;
    forall k | 0 <= k < |all| ensures all[k].name == UploadName(k) && all[k].file.Upload? {
      if k >= |parts| {
        assert all[k] == Parts(Outside(v), |parts|)[k - |parts|];
      }
    }
    hide UploadName;
    forall i, j | 0 <= i < j < |all| ensures all[i].name != all[j].name {
      if UploadName(i) == UploadName(j) {
        UploadNamesAreDistinct(i, j);
      }
    }
  }

  lemma {:induction false} OutsideAreUploads(v: Value)
    ensures forall f | f in Outside(v) :: f.Upload?
    decreases v
  {
    match v
    case Pointer(t) => OutsideAreUploads(t);
    case Interface(t) => OutsideAreUploads(t);
    case Struct(vs) => OutsideInAreUploads(vs);
    case Slice(vs) => OutsideInAreUploads(vs);
    case _ =>
  }

  lemma {:induction false} OutsideInAreUploads(vs: seq<Value>)
    ensures forall f | f in OutsideIn(vs) :: f.Upload?
    decreases vs
  {
    if vs != [] {
      OutsideInAreUploads(vs[..|vs| - 1]);
      OutsideAreUploads(vs[|vs| - 1]);
    }
  }

  // --------------------------------------------------------------------------
  // Reading the request back

  lemma SameUpToLast(s: seq<Value>, x: Value, t: seq<Value>)
    requires |t| == |s| + 1
    ensures s + [x] == t <==> s == t[..|s|] && x == t[|s|]
  {
    assert t == t[..|s|] + [t[|s|]];
    assert (s + [x])[|s|] == x && (s + [x])[..|s|] == s;
  }

  lemma InAllButLast(s: seq<Value>)
    requires s != []
    ensures forall w :: w in s <==> w in s[..|s| - 1] || w == s[|s| - 1]
  {
    assert s == s[..|s| - 1] + [s[|s| - 1]];
  }

  /** What the server does with a reference: the first part of that name, or the reference itself. */
  function Resolve(text: string, parts: seq<HoistedUpload>): InputFile {
    if parts == [] then Reference(text)
    else if text == Attach(parts[0].name) then parts[0].file
    else Resolve(text, parts[1..])
  }

  /** The value the server reads: every reference it sees resolved. */
  function Restored(v: Value, parts: seq<HoistedUpload>): Value {
    match v
    case File(f) => if f.Upload? then v else File(Resolve(f.text, parts))
    case Pointer(t) => Pointer(Restored(t, parts))
    case Interface(t) => Interface(Restored(t, parts))
    case Struct(vs) => Struct(RestoredIn(vs, parts))
    case Slice(vs) => Slice(RestoredIn(vs, parts))
    case Array(vs) => Array(RestoredIn(vs, parts))
    case _ => v
  }

  function RestoredIn(vs: seq<Value>, parts: seq<HoistedUpload>): (r: seq<Value>)
    ensures |r| == |vs|
  {
    if vs == [] then [] else RestoredIn(vs[..|vs| - 1], parts) + [Restored(vs[|vs| - 1], parts)]
  }

  /** No file of v is a reference to one of the first count names. */
  predicate UsesNoName(v: Value, count: nat) {
    match v
    case File(f) => f.Reference? ==> forall k: nat | k < count :: f.text != Attach(UploadName(k))
    case Pointer(t) => UsesNoName(t, count)
    case Interface(t) => UsesNoName(t, count)
    case Struct(vs) => forall w | w in vs :: UsesNoName(w, count)
    case Slice(vs) => forall w | w in vs :: UsesNoName(w, count)
    case Array(vs) => forall w | w in vs :: UsesNoName(w, count)
    case _ => true
  }

  /** Every unexported field hoistUploads passes holds its zero value. */
  predicate HiddenAreZero(v: Value) {
    match v
    case Pointer(t) => HiddenAreZero(t)
    case Interface(t) => HiddenAreZero(t)
    case Struct(vs) => forall w | w in vs :: HiddenAreZero(w)
    case Slice(vs) => forall w | w in vs :: HiddenAreZero(w)
    case Hidden(w) => w == Zero(w)
    case _ => true
  }

  /** What hoisting v can be undone on: nothing of v looks like a hoisted reference, and nothing hidden is lost. */
  predicate Undoable(v: Value, count: nat) {
    UsesNoName(v, count) && HiddenAreZero(v)
  }

  /** The parts are numbered from n. */
  ghost predicate NumberedFrom(parts: seq<HoistedUpload>, n: nat) {
    forall k | 0 <= k < |parts| :: parts[k].name == UploadName(n + k)
  }

  lemma TailIsNumbered(parts: seq<HoistedUpload>, n: nat)
    requires NumberedFrom(parts, n) && parts != []
    ensures NumberedFrom(parts[1..], n + 1) && parts[0].name == UploadName(n)
  {
    hide UploadName;
    assert parts[0].name == UploadName(n + 0);
    forall k | 0 <= k < |parts[1..]| ensures parts[1..][k].name == UploadName(n + 1 + k) {
      assert parts[1..][k] == parts[k + 1] && n + 1 + k == n + (k + 1);
    }
  }

  lemma {:induction false} ResolveFinds(parts: seq<HoistedUpload>, n: nat, k: nat)
    requires NumberedFrom(parts, n) && k < |parts|
    ensures Resolve(Attach(UploadName(n + k)), parts) == parts[k].file
  {
    hide UploadName, Attach, NumberedFrom;
    TailIsNumbered(parts, n);
    if k > 0 {
      if Attach(UploadName(n + k)) == Attach(UploadName(n)) {
        UploadNamesAreDistinct(n, n + k);
      }
      ResolveFinds(parts[1..], n + 1, k - 1);
      assert n + 1 + (k - 1) == n + k;
    }
  }

  lemma {:induction false} ResolveLeaves(text: string, parts: seq<HoistedUpload>, n: nat)
    requires NumberedFrom(parts, n)
    requires forall k: nat | n <= k < n + |parts| :: text != Attach(UploadName(k))
    ensures Resolve(text, parts) == Reference(text)
  {
    if parts != [] {
      hide UploadName, Attach, NumberedFrom;
      TailIsNumbered(parts, n);
      ResolveLeaves(text, parts[1..], n + 1);
    }
  }

  lemma ResolveExactly(text: string, parts: seq<HoistedUpload>)
    requires Numbered(parts)
    ensures Resolve(text, parts) == Reference(text) <==> forall k: nat | k < |parts| :: text != Attach(UploadName(k))
    ensures forall k: nat | k < |parts| && text == Attach(UploadName(k)) :: Resolve(text, parts) == parts[k].file
  {
    assert NumberedFrom(parts, 0);
    hide UploadName, Attach, NumberedFrom, Resolve;
    forall k: nat | k < |parts| && text == Attach(UploadName(k)) ensures Resolve(text, parts) == parts[k].file {
      ResolveFinds(parts, 0, k);
      assert 0 + k == k;
    }
    if forall k: nat | k < |parts| :: text != Attach(UploadName(k)) {
      ResolveLeaves(text, parts, 0);
    }
  }

  /** The parts hold v's uploads from number n on. */
  ghost predicate HoldsFrom(parts: seq<HoistedUpload>, files: seq<InputFile>, n: nat) {
    n + |files| <= |parts| && forall k | 0 <= k < |files| :: parts[n + k].file == files[k]
  }

  lemma HoldsBoth(parts: seq<HoistedUpload>, s: seq<InputFile>, t: seq<InputFile>, n: nat)
    requires HoldsFrom(parts, s + t, n)
    ensures HoldsFrom(parts, s, n) && HoldsFrom(parts, t, n + |s|)
  {
    forall k | 0 <= k < |s| ensures parts[n + k].file == s[k] {
      assert parts[n + k].file == (s + t)[k];
    }
    forall k | 0 <= k < |t| ensures parts[n + |s| + k].file == t[k] {
      assert parts[n + (|s| + k)].file == (s + t)[|s| + k];
    }
  }

  /**
   Resolving the references of a hoisted value in the request's finished list of parts gives back the value exactly
   when it had no reference of that form and lost nothing hidden.
   */
  lemma {:induction false} HoistIsUndoneExactly(v: Value, n: nat, parts: seq<HoistedUpload>)
    requires Numbered(parts) && HoldsFrom(parts, Outside(v), n)
    ensures Restored(Hoisted(v, n), parts) == v <==> Undoable(v, |parts|)
    decreases v
  {
    match v
    case File(f) =>
      if f.Upload? {
        assert parts[n + 0].file == Outside(v)[0];
        ResolveExactly(Attach(UploadName(n)), parts);
      } else {
        ResolveExactly(f.text, parts);
      }
    case Pointer(t) => HoistIsUndoneExactly(t, n, parts);
    case Interface(t) => HoistIsUndoneExactly(t, n, parts);
    case Struct(vs) => HoistInIsUndoneExactly(vs, n, parts);
    case Slice(vs) => HoistInIsUndoneExactly(vs, n, parts);
    case Array(vs) => RestoredInIsSameExactly(vs, parts);
    case _ =>
  }

  /** The last of several values is hoisted and resolved on its own. */
  lemma LastIsRestored(vs: seq<Value>, n: nat, parts: seq<HoistedUpload>)
    requires vs != []
    ensures var k := |vs| - 1;
            RestoredIn(HoistedIn(vs, n), parts)
            == RestoredIn(HoistedIn(vs[..k], n), parts)
               + [Restored(Hoisted(vs[k], n + |OutsideIn(vs[..k])|), parts)]
  {
    var k := |vs| - 1;
    assert HoistedIn(vs, n)[..k] == HoistedIn(vs[..k], n);
  }

  predicate AllUndoable(vs: seq<Value>, count: nat) {
    forall w | w in vs :: Undoable(w, count)
  }

  lemma SameIfEachIs(s: seq<Value>, x: Value, vs: seq<Value>, count: nat)
    requires vs != [] && |s| == |vs| - 1
    requires s == vs[..|vs| - 1] <==> AllUndoable(vs[..|vs| - 1], count)
    requires x == vs[|vs| - 1] <==> Undoable(vs[|vs| - 1], count)
    ensures s + [x] == vs <==> AllUndoable(vs, count)
  {
    hide Undoable;
    SameUpToLast(s, x, vs);
    InAllButLast(vs);
  }

  lemma NothingToUndo(n: nat, parts: seq<HoistedUpload>, count: nat)
    ensures RestoredIn(HoistedIn([], n), parts) == [] && AllUndoable([], count)
  {
  }

  lemma LastIsOutside(vs: seq<Value>)
    requires vs != []
    ensures OutsideIn(vs) == OutsideIn(vs[..|vs| - 1]) + Outside(vs[|vs| - 1])
  {
  }

  lemma {:induction false} HoistInIsUndoneExactly(vs: seq<Value>, n: nat, parts: seq<HoistedUpload>)
    requires Numbered(parts) && HoldsFrom(parts, OutsideIn(vs), n)
    ensures RestoredIn(HoistedIn(vs, n), parts) == vs <==> AllUndoable(vs, |parts|)
    decreases vs
  {
    hide *;
    if vs == [] {
      NothingToUndo(n, parts, |parts|);
    } else {
      var k := |vs| - 1;
      var m := n + |OutsideIn(vs[..k])|;
      LastIsOutside(vs);
      HoldsBoth(parts, OutsideIn(vs[..k]), Outside(vs[k]), n);
      HoistInIsUndoneExactly(vs[..k], n, parts);
      HoistIsUndoneExactly(vs[k], m, parts);
      LastIsRestored(vs, n, parts);
      SameIfEachIs(RestoredIn(HoistedIn(vs[..k], n), parts), Restored(Hoisted(vs[k], m), parts), vs, |parts|);
    }
  }

  lemma {:induction false} RestoredIsSameExactly(v: Value, parts: seq<HoistedUpload>)
    requires Numbered(parts)
    ensures Restored(v, parts) == v <==> UsesNoName(v, |parts|)
    decreases v
  {
    match v
    case File(f) => if f.Reference? { ResolveExactly(f.text, parts); }
    case Pointer(t) => RestoredIsSameExactly(t, parts);
    case Interface(t) => RestoredIsSameExactly(t, parts);
    case Struct(vs) => RestoredInIsSameExactly(vs, parts);
    case Slice(vs) => RestoredInIsSameExactly(vs, parts);
    case Array(vs) => RestoredInIsSameExactly(vs, parts);
    case _ =>
  }

  lemma {:induction false} RestoredInIsSameExactly(vs: seq<Value>, parts: seq<HoistedUpload>)
    requires Numbered(parts)
    ensures RestoredIn(vs, parts) == vs <==> forall w | w in vs :: UsesNoName(w, |parts|)
    decreases vs
  {
    if vs != [] {
      var k := |vs| - 1;
      RestoredInIsSameExactly(vs[..k], parts);
      RestoredIsSameExactly(vs[k], parts);
      hide UsesNoName, Restored, Numbered;
      SameUpToLast(RestoredIn(vs[..k], parts), Restored(vs[k], parts), vs);
      InAllButLast(vs);
    }
  }
}
