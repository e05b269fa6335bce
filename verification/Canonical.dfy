/** The collecting serializer of shared/manifest/src/canonical.rs:66-452. A value is
    described by the calls its `Serialize` impl makes; collecting it yields a tree
    whose objects are sorted. */
module Canonical {
  import opened Wrappers
  import opened JsonTree
  import opened Words

  datatype CanonicalError = InvalidNonFiniteFloat | NonStringMapKey | BytesNotAllowed | Custom(message: string)

  /** One constructor per `serialize_*` call; those that do the same are merged
      (all signed widths, all unsigned ones, sequences with tuples, `collect_str`
      with `serialize_str`). */
  datatype Value =
    | Flag(flag: bool)
    | Signed(signed: i64)
    | Unsigned(unsigned: u64)
    | Float
    | ByteString
    | Character(c: char)
    | Text(text: string)
    | Absent
    | Present(inner: Value)
    | Unit
    | UnitVariant(name: string)
    | NewtypeStruct(inner: Value)
    | NewtypeVariant(name: string, inner: Value)
    | Sequence(elements: seq<Value>)
    | TupleVariant(name: string, elements: seq<Value>)
    | Map(entries: seq<Entry>)
    | Struct(members: seq<Member>)
    | StructVariant(name: string, members: seq<Member>)

  datatype Entry = Entry(key: Value, value: Value)

  datatype Member = Member(name: string, value: Value)

  type Nfc = string -> string

  function Collect(nfc: Nfc, v: Value): Result<Node, CanonicalError>
    decreases v, 0
  {
    match v
    case Flag(b) => Ok(Bool(b))
    case Signed(i) => Ok(Node.Number(NegInt(i)))
    case Unsigned(u) => Ok(Node.Number(PosInt(u)))
    case Float => Err(InvalidNonFiniteFloat)
    case ByteString => Err(BytesNotAllowed)
    case Character(c) => Ok(String(nfc([c])))
    case Text(s) => Ok(String(nfc(s)))
    case Absent => Ok(Null)
    case Present(w) => Collect(nfc, w)
    case Unit => Ok(Null)
    case UnitVariant(name) => Ok(String(nfc(name)))
    case NewtypeStruct(w) => Collect(nfc, w)
    case NewtypeVariant(name, w) => Wrap(name, Collect(nfc, w))
    case Sequence(vs) => AsArray(CollectItems(nfc, vs))
    case TupleVariant(name, vs) => Wrap(name, AsArray(CollectItems(nfc, vs)))
    case Map(es) => AsObject(CollectEntries(nfc, es))
    case Struct(ms) => AsObject(CollectMembers(nfc, ms))
    case StructVariant(name, ms) => Wrap(name, AsObject(CollectMembers(nfc, ms)))
  }

  /** `{"variant": node}`: the variant name itself is not normalised. */
  function Wrap(name: string, r: Result<Node, CanonicalError>): Result<Node, CanonicalError> {
    match r case Ok(n) => Ok(Object([Field(name, n)])) case Err(e) => Err(e)
  }

  function AsArray(r: Result<seq<Node>, CanonicalError>): Result<Node, CanonicalError> {
    match r case Ok(ns) => Ok(Array(ns)) case Err(e) => Err(e)
  }

  function AsObject(r: Result<seq<Field>, CanonicalError>): Result<Node, CanonicalError> {
    match r case Ok(fs) => Ok(Object(fs)) case Err(e) => Err(e)
  }

  function CollectItems(nfc: Nfc, vs: seq<Value>): Result<seq<Node>, CanonicalError>
    decreases vs
  {
    if vs == [] then Ok([])
    else match CollectItems(nfc, vs[..|vs| - 1])
      case Err(e) => Err(e)
      case Ok(ns) =>
        match Collect(nfc, vs[|vs| - 1])
        case Err(e) => Err(e)
        case Ok(n) => Ok(ns + [n])
  }

  function CollectKey(nfc: Nfc, key: Value): Result<string, CanonicalError>
    decreases key, 1
  {
    match Collect(nfc, key)
    case Err(e) => Err(e)
    case Ok(n) => if n.String? then Ok(n.text) else Err(NonStringMapKey)
  }

  function CollectEntry(nfc: Nfc, e: Entry): Result<Field, CanonicalError>
    decreases e, 2
  {
    match CollectKey(nfc, e.key)
    case Err(x) => Err(x)
    case Ok(k) =>
      match Collect(nfc, e.value)
      case Err(x) => Err(x)
      case Ok(n) => Ok(Field(k, n))
  }

  function CollectEntries(nfc: Nfc, es: seq<Entry>): Result<seq<Field>, CanonicalError>
    decreases es
  {
    if es == [] then Ok([])
    else match CollectEntries(nfc, es[..|es| - 1])
      case Err(x) => Err(x)
      case Ok(fs) =>
        match CollectEntry(nfc, es[|es| - 1])
        case Err(x) => Err(x)
        case Ok(f) => Ok(Insert(fs, f))
  }

  function CollectMembers(nfc: Nfc, ms: seq<Member>): Result<seq<Field>, CanonicalError>
    decreases ms
  {
    if ms == [] then Ok([])
    else match CollectMembers(nfc, ms[..|ms| - 1])
      case Err(x) => Err(x)
      case Ok(fs) =>
        match Collect(nfc, ms[|ms| - 1].value)
        case Err(x) => Err(x)
        case Ok(n) => Ok(Insert(fs, Field(ms[|ms| - 1].name, n)))
  }

  // ----- the buffering serializers -----

  class SeqSerializer {
    var items: seq<Node>

    constructor ()
      ensures items == []
    {
      items := [];
    }

    method SerializeElement(nfc: Nfc, value: Value) returns (r: Result<(), CanonicalError>)
      modifies this
      ensures Collect(nfc, value).Err? ==> r == Err(Collect(nfc, value).error) && items == old(items)
      ensures Collect(nfc, value).Ok? ==> r.Ok? && items == old(items) + [Collect(nfc, value).value]
    {
      var n := Collect(nfc, value);
      if n.Err? {
        return Err(n.error);
      }
      items := items + [n.value];
      return Ok(());
    }

    method End() returns (n: Node)
      ensures n == Array(items)
    {
      return Array(items);
    }
  }

  class MapSerializer {
    var entries: seq<Field>
    var pending: Option<string>

    constructor ()
      ensures entries == [] && pending == None
    {
      entries, pending := [], None;
    }

    method SerializeKey(nfc: Nfc, key: Value) returns (r: Result<(), CanonicalError>)
      modifies this
      ensures CollectKey(nfc, key).Err? ==>
                r == Err(CollectKey(nfc, key).error) && entries == old(entries) && pending == old(pending)
      ensures CollectKey(nfc, key).Ok? ==>
                && r.Ok? && pending == Some(CollectKey(nfc, key).value)
                && entries == Insert(old(entries), Field(CollectKey(nfc, key).value, Null))
    {
      var k := Collect(nfc, key);
      match k {
        case Err(e) =>
          return Err(e);
        case Ok(n) =>
          if !n.String? {
            return Err(NonStringMapKey);
          }
          entries := Insert(entries, Field(n.text, Null));
          pending := Some(n.text);
          return Ok(());
      }
    }

    method SerializeValue(nfc: Nfc, value: Value) returns (r: Result<(), CanonicalError>)
      modifies this
      ensures Collect(nfc, value).Err? ==>
                r == Err(Collect(nfc, value).error) && entries == old(entries) && pending == old(pending)
      ensures Collect(nfc, value).Ok? && old(pending).None? ==>
                r == Err(Custom("serialize_value without serialize_key")) && entries == old(entries) && pending == None
      ensures Collect(nfc, value).Ok? && old(pending).Some? ==>
                && r.Ok? && pending == None
                && entries == Insert(old(entries), Field(old(pending).value, Collect(nfc, value).value))
    {
      var v := Collect(nfc, value);
      if v.Err? {
        return Err(v.error);
      }
      var key := pending;
      pending := None;
      if key.None? {
        return Err(Custom("serialize_value without serialize_key"));
      }
      entries := Insert(entries, Field(key.value, v.value));
      return Ok(());
    }

    method End() returns (n: Node)
      ensures n == Object(entries)
    {
      return Object(entries);
    }
  }

  class StructSerializer {
    var entries: seq<Field>

    constructor ()
      ensures entries == []
    {
      entries := [];
    }

    method SerializeField(nfc: Nfc, key: string, value: Value) returns (r: Result<(), CanonicalError>)
      modifies this
      ensures Collect(nfc, value).Err? ==> r == Err(Collect(nfc, value).error) && entries == old(entries)
      ensures Collect(nfc, value).Ok? ==>
                r.Ok? && entries == Insert(old(entries), Field(key, Collect(nfc, value).value))
    {
      var n := Collect(nfc, value);
      if n.Err? {
        return Err(n.error);
      }
      entries := Insert(entries, Field(key, n.value));
      return Ok(());
    }

    method End() returns (n: Node)
      ensures n == Object(entries)
    {
      return Object(entries);
    }
  }

  /** Of two insertions under one key, the first makes no difference. */
  lemma {:induction false} InsertTwice(fs: seq<Field>, k: string, p: Node, n: Node)
    ensures Insert(Insert(fs, Field(k, p)), Field(k, n)) == Insert(fs, Field(k, n))
  {
    hide KeyLess;
    KeyTotal(k, k);
    if fs != [] {
      KeyTotal(fs[0].key, k);
      InsertTwice(fs[1..], k, p, n);
      var r := Insert(fs, Field(k, p));
      assert KeyLess(fs[0].key, k) ==> r[1..] == Insert(fs[1..], Field(k, p));
      assert fs[0].key == k ==> r[1..] == fs[1..];
      assert !KeyLess(fs[0].key, k) && fs[0].key != k ==> r[1..] == fs;
    }
  }

  /** Driving the map serializer through a list of entries. */
  method CollectMap(nfc: Nfc, es: seq<Entry>) returns (r: Result<Node, CanonicalError>)
    ensures r == Collect(nfc, Map(es))
  {
    hide Insert;
    var ser := new MapSerializer();
    var i := 0;
    while i < |es|
      invariant i <= |es| && CollectEntries(nfc, es[..i]) == Ok(ser.entries)
    {
      assert es[..i + 1][..i] == es[..i];
      InsertTwiceFor(nfc, ser.entries, es[i]);
      FailedPrefix(nfc, es, i + 1);
      var key := ser.SerializeKey(nfc, es[i].key);
      if key.Err? {
        return Err(key.error);
      }
      var value := ser.SerializeValue(nfc, es[i].value);
      if value.Err? {
        return Err(value.error);
      }
      i := i + 1;
    }
    assert es[..i] == es;
    r := Ok(Object(ser.entries));
  }

  lemma InsertTwiceFor(nfc: Nfc, fs: seq<Field>, e: Entry)
    ensures CollectEntry(nfc, e).Ok? ==>
              var f := CollectEntry(nfc, e).value;
              Insert(Insert(fs, Field(f.key, Null)), f) == Insert(fs, f)
  {
    hide Insert, Collect;
    if CollectEntry(nfc, e).Ok? {
      InsertTwice(fs, CollectEntry(nfc, e).value.key, Null, CollectEntry(nfc, e).value.value);
    }
  }

  /** The first failing entry decides the error. */
  lemma {:induction false} FailedPrefix(nfc: Nfc, es: seq<Entry>, k: nat)
    requires k <= |es|
    ensures CollectEntries(nfc, es[..k]).Err? ==> CollectEntries(nfc, es) == CollectEntries(nfc, es[..k])
    decreases |es| - k
  {
    hide CollectEntry, Insert;
    if k < |es| {
      FailedPrefix(nfc, es, k + 1);
      assert es[..k + 1][..k] == es[..k];
    } else {
      assert es[..k] == es;
    }
  }

  /** Driving the sequence serializer through a list of elements. */
  method CollectSequence(nfc: Nfc, vs: seq<Value>) returns (r: Result<Node, CanonicalError>)
    ensures r == Collect(nfc, Sequence(vs))
  {
    var ser := new SeqSerializer();
    var i := 0;
    while i < |vs|
      invariant i <= |vs| && CollectItems(nfc, vs[..i]) == Ok(ser.items)
    {
      assert vs[..i + 1][..i] == vs[..i];
      FailedItems(nfc, vs, i + 1);
      var element := ser.SerializeElement(nfc, vs[i]);
      if element.Err? {
        return Err(element.error);
      }
      i := i + 1;
    }
    assert vs[..i] == vs;
    r := Ok(Array(ser.items));
  }

  lemma {:induction false} FailedItems(nfc: Nfc, vs: seq<Value>, k: nat)
    requires k <= |vs|
    ensures CollectItems(nfc, vs[..k]).Err? ==> CollectItems(nfc, vs) == CollectItems(nfc, vs[..k])
    decreases |vs| - k
  {
    hide Collect;
    if k < |vs| {
      FailedItems(nfc, vs, k + 1);
      assert vs[..k + 1][..k] == vs[..k];
    } else {
      assert vs[..k] == vs;
    }
  }

  /** Driving the struct serializer through a list of members. */
  method CollectStruct(nfc: Nfc, ms: seq<Member>) returns (r: Result<Node, CanonicalError>)
    ensures r == Collect(nfc, Struct(ms))
  {
    hide Insert;
    var ser := new StructSerializer();
    var i := 0;
    while i < |ms|
      invariant i <= |ms| && CollectMembers(nfc, ms[..i]) == Ok(ser.entries)
    {
      assert ms[..i + 1][..i] == ms[..i];
      FailedMembers(nfc, ms, i + 1);
      var member := ser.SerializeField(nfc, ms[i].name, ms[i].value);
      if member.Err? {
        return Err(member.error);
      }
      i := i + 1;
    }
    assert ms[..i] == ms;
    r := Ok(Object(ser.entries));
  }

  lemma {:induction false} FailedMembers(nfc: Nfc, ms: seq<Member>, k: nat)
    requires k <= |ms|
    ensures CollectMembers(nfc, ms[..k]).Err? ==> CollectMembers(nfc, ms) == CollectMembers(nfc, ms[..k])
    decreases |ms| - k
  {
    hide Collect, Insert;
    if k < |ms| {
      FailedMembers(nfc, ms, k + 1);
      assert ms[..k + 1][..k] == ms[..k];
    } else {
      assert ms[..k] == ms;
    }
  }

  // ----- keys increase at every depth -----

  /** Whatever order map entries and struct members arrive in, the tree is sorted. */
  lemma {:induction false} CollectSorted(nfc: Nfc, v: Value)
    ensures Collect(nfc, v).Ok? ==> Sorted(Collect(nfc, v).value)
    decreases v
  {
    hide CollectItems, CollectEntries, CollectMembers, KeyLess;
    match v {
      case Present(w) => CollectSorted(nfc, w);
      case NewtypeStruct(w) => CollectSorted(nfc, w);
      case NewtypeVariant(name, w) => CollectSorted(nfc, w);
      case Sequence(vs) => ItemsSorted(nfc, vs);
      case TupleVariant(name, vs) => ItemsSorted(nfc, vs);
      case Map(es) => EntriesSorted(nfc, es);
      case Struct(ms) => MembersSorted(nfc, ms);
      case StructVariant(name, ms) => MembersSorted(nfc, ms);
      case _ =>
    }
  }

  lemma {:induction false} ItemsSorted(nfc: Nfc, vs: seq<Value>)
    ensures CollectItems(nfc, vs).Ok? ==> Sorted(Array(CollectItems(nfc, vs).value))
    decreases vs
  {
    hide Collect;
    if vs != [] {
      ItemsSorted(nfc, vs[..|vs| - 1]);
      CollectSorted(nfc, vs[|vs| - 1]);
    }
  }

  lemma InsertKeepsSorted(fs: seq<Field>, f: Field)
    requires Sorted(Object(fs)) && Sorted(f.value)
    ensures Sorted(Object(Insert(fs, f)))
  {
    hide Increasing, Insert;
    InsertKeepsOrder(fs, f);
    InsertMembers(fs, f);
    var r := Insert(fs, f);
    forall i | 0 <= i < |r|
      ensures Sorted(r[i].value)
    {
      assert r[i] in r;
    }
  }

  lemma {:induction false} EntrySorted(nfc: Nfc, e: Entry)
    ensures CollectEntry(nfc, e).Ok? ==> Sorted(CollectEntry(nfc, e).value.value)
    decreases e
  {
    hide Collect, Sorted;
    CollectSorted(nfc, e.value);
  }

  lemma {:induction false} EntriesSorted(nfc: Nfc, es: seq<Entry>)
    ensures CollectEntries(nfc, es).Ok? ==> Sorted(Object(CollectEntries(nfc, es).value))
    decreases es
  {
    hide CollectEntry, Sorted, Insert;
    if es == [] {
      EmptySorted();
    } else {
      EntriesSorted(nfc, es[..|es| - 1]);
      EntrySorted(nfc, es[|es| - 1]);
      if CollectEntries(nfc, es).Ok? {
        InsertKeepsSorted(CollectEntries(nfc, es[..|es| - 1]).value, CollectEntry(nfc, es[|es| - 1]).value);
      }
    }
  }

  lemma EmptySorted()
    ensures Sorted(Object([]))
  {}

  lemma {:induction false} MembersSorted(nfc: Nfc, ms: seq<Member>)
    ensures CollectMembers(nfc, ms).Ok? ==> Sorted(Object(CollectMembers(nfc, ms).value))
    decreases ms
  {
    hide Collect, Sorted, Insert;
    if ms == [] {
      EmptySorted();
    } else {
      var m := ms[|ms| - 1];
      MembersSorted(nfc, ms[..|ms| - 1]);
      CollectSorted(nfc, m.value);
      if CollectMembers(nfc, ms).Ok? {
        InsertKeepsSorted(CollectMembers(nfc, ms[..|ms| - 1]).value, Field(m.name, Collect(nfc, m.value).value));
      }
    }
  }

  // ----- what is refused -----

  /** A value that collects to a string. */
  predicate IsText(v: Value) {
    match v
    case Character(_) => true
    case Text(_) => true
    case UnitVariant(_) => true
    case Present(w) => IsText(w)
    case NewtypeStruct(w) => IsText(w)
    case _ => false
  }

  /** No float, no byte string, and text for every map key, at any depth. */
  predicate Admissible(v: Value)
    decreases v
  {
    match v
    case Float => false
    case ByteString => false
    case Present(w) => Admissible(w)
    case NewtypeStruct(w) => Admissible(w)
    case NewtypeVariant(_, w) => Admissible(w)
    case Sequence(vs) => forall i :: 0 <= i < |vs| ==> Admissible(vs[i])
    case TupleVariant(_, vs) => forall i :: 0 <= i < |vs| ==> Admissible(vs[i])
    case Map(es) => forall i :: 0 <= i < |es| ==> AdmissibleEntry(es[i])
    case Struct(ms) => forall i :: 0 <= i < |ms| ==> Admissible(ms[i].value)
    case StructVariant(_, ms) => forall i :: 0 <= i < |ms| ==> Admissible(ms[i].value)
    case _ => true
  }

  predicate AdmissibleEntry(e: Entry)
    decreases e
  {
    IsText(e.key) && Admissible(e.value)
  }

  lemma {:induction false} TextCollects(nfc: Nfc, v: Value)
    ensures IsText(v) <==> Collect(nfc, v).Ok? && Collect(nfc, v).value.String?
  {
    hide CollectItems, CollectEntries, CollectMembers;
    match v {
      case Present(w) => TextCollects(nfc, w);
      case NewtypeStruct(w) => TextCollects(nfc, w);
      case _ =>
    }
  }

  /** Collecting succeeds exactly on admissible values. */
  lemma {:induction false} CollectFails(nfc: Nfc, v: Value)
    ensures Collect(nfc, v).Ok? <==> Admissible(v)
    decreases v
  {
    hide CollectItems, CollectEntries, CollectMembers;
    match v {
      case Present(w) => CollectFails(nfc, w);
      case NewtypeStruct(w) => CollectFails(nfc, w);
      case NewtypeVariant(name, w) => CollectFails(nfc, w);
      case Sequence(vs) => ItemsFail(nfc, vs);
      case TupleVariant(name, vs) => ItemsFail(nfc, vs);
      case Map(es) => EntriesFail(nfc, es);
      case Struct(ms) => MembersFail(nfc, ms);
      case StructVariant(name, ms) => MembersFail(nfc, ms);
      case _ =>
    }
  }

  lemma {:induction false} ItemsFail(nfc: Nfc, vs: seq<Value>)
    ensures CollectItems(nfc, vs).Ok? <==> forall i :: 0 <= i < |vs| ==> Admissible(vs[i])
    decreases vs
  {
    hide Collect, Admissible;
    if vs != [] {
      ItemsFail(nfc, vs[..|vs| - 1]);
      CollectFails(nfc, vs[|vs| - 1]);
    }
  }

  lemma {:induction false} EntryFails(nfc: Nfc, e: Entry)
    ensures CollectEntry(nfc, e).Ok? <==> AdmissibleEntry(e)
    decreases e
  {
    hide Collect, Admissible, IsText;
    TextCollects(nfc, e.key);
    CollectFails(nfc, e.value);
  }

  lemma {:induction false} EntriesFail(nfc: Nfc, es: seq<Entry>)
    ensures CollectEntries(nfc, es).Ok? <==> forall i :: 0 <= i < |es| ==> AdmissibleEntry(es[i])
    decreases es
  {
    hide CollectEntry, AdmissibleEntry, Insert;
    if es != [] {
      EntriesFail(nfc, es[..|es| - 1]);
      EntryFails(nfc, es[|es| - 1]);
    }
  }

  lemma {:induction false} MembersFail(nfc: Nfc, ms: seq<Member>)
    ensures CollectMembers(nfc, ms).Ok? <==> forall i :: 0 <= i < |ms| ==> Admissible(ms[i].value)
    decreases ms
  {
    hide Collect, Admissible, Insert;
    if ms != [] {
      MembersFail(nfc, ms[..|ms| - 1]);
      CollectFails(nfc, ms[|ms| - 1].value);
    }
  }

  // ----- the order of map entries does not matter -----

  /** The entries as fields, in arrival order. */
  function Fields(nfc: Nfc, es: seq<Entry>): Result<seq<Field>, CanonicalError> {
    if es == [] then Ok([])
    else match Fields(nfc, es[..|es| - 1])
      case Err(x) => Err(x)
      case Ok(fs) =>
        match CollectEntry(nfc, es[|es| - 1])
        case Err(x) => Err(x)
        case Ok(f) => Ok(fs + [f])
  }

  lemma {:induction false} EntriesInserted(nfc: Nfc, es: seq<Entry>)
    ensures CollectEntries(nfc, es).Ok? <==> Fields(nfc, es).Ok?
    ensures Fields(nfc, es).Ok? ==> CollectEntries(nfc, es) == Ok(InsertAll([], Fields(nfc, es).value))
  {
    hide CollectEntry, Insert;
    if es != [] {
      EntriesInserted(nfc, es[..|es| - 1]);
      if Fields(nfc, es).Ok? {
        var fs := Fields(nfc, es).value;
        assert fs[..|fs| - 1] == Fields(nfc, es[..|es| - 1]).value;
      }
    }
  }

  lemma {:induction false} FieldsAre(nfc: Nfc, es: seq<Entry>)
    requires Fields(nfc, es).Ok?
    ensures |Fields(nfc, es).value| == |es|
    ensures forall i :: 0 <= i < |es| ==> CollectEntry(nfc, es[i]) == Ok(Fields(nfc, es).value[i])
  {
    hide CollectEntry;
    if es != [] {
      FieldsAre(nfc, es[..|es| - 1]);
    }
  }

  lemma FieldMembers(nfc: Nfc, es: seq<Entry>, f: Field)
    requires Fields(nfc, es).Ok?
    ensures f in Fields(nfc, es).value <==> exists e :: e in es && CollectEntry(nfc, e) == Ok(f)
  {
    hide CollectEntry, Fields;
    FieldsAre(nfc, es);
    var fs := Fields(nfc, es).value;
    if f in fs {
      var i :| 0 <= i < |fs| && fs[i] == f;
      assert es[i] in es;
    }
    if exists e :: e in es && CollectEntry(nfc, e) == Ok(f) {
      var e :| e in es && CollectEntry(nfc, e) == Ok(f);
      var i :| 0 <= i < |es| && es[i] == e;
      assert fs[i] in fs;
    }
  }

  /** Distinct entries whose keys are text have distinct normalised keys. */
  ghost predicate DistinctKeys(nfc: Nfc, es: seq<Entry>) {
    forall e, f :: e in es && f in es && CollectKey(nfc, e.key).Ok? && CollectKey(nfc, e.key) == CollectKey(nfc, f.key) ==> e == f
  }

  lemma InsertedFields(fs: seq<Field>)
    requires Unambiguous(fs)
    ensures Increasing(InsertAll([], fs))
    ensures forall f :: f in InsertAll([], fs) <==> f in fs
  {
    hide Unambiguous, Increasing, InsertAll, Lookup;
    assert Increasing([]) by {
      EmptyIncreasing();
    }
    InsertAllIncreasing([], fs);
    var r := InsertAll([], fs);
    forall f
      ensures f in r <==> f in fs
    {
      LookupAll(fs, f.key);
      LookupMembers(r, f.key);
      assert f == Field(f.key, f.value);
    }
  }

  lemma EmptyIncreasing()
    ensures Increasing([])
  {}

  lemma FieldsUnambiguous(nfc: Nfc, es: seq<Entry>)
    requires DistinctKeys(nfc, es) && Fields(nfc, es).Ok?
    ensures Unambiguous(Fields(nfc, es).value)
  {
    hide Collect, Fields, CollectKey;
    var fs := Fields(nfc, es).value;
    forall f, g | f in fs && g in fs && f.key == g.key
      ensures f == g
    {
      FieldMembers(nfc, es, f);
      FieldMembers(nfc, es, g);
      var d :| d in es && CollectEntry(nfc, d) == Ok(f);
      var e :| e in es && CollectEntry(nfc, e) == Ok(g);
      assert CollectKey(nfc, d.key) == Ok(f.key) && CollectKey(nfc, e.key) == Ok(g.key);
    }
  }

  /** A map's tree depends on the set of its entries only, provided normalisation
      does not merge two of its keys; and so does whether it is refused. */
  lemma MapOrder(nfc: Nfc, es: seq<Entry>, ds: seq<Entry>)
    requires DistinctKeys(nfc, es)
    requires forall e :: e in es <==> e in ds
    ensures Collect(nfc, Map(es)).Ok? <==> Collect(nfc, Map(ds)).Ok?
    ensures Collect(nfc, Map(es)).Ok? ==> Collect(nfc, Map(es)) == Collect(nfc, Map(ds))
  {
    hide Fields, CollectEntries, CollectEntry, Unambiguous, Increasing, InsertAll;
    EntriesFailSet(nfc, es, ds);
    EntriesInserted(nfc, es);
    EntriesInserted(nfc, ds);
    if Fields(nfc, es).Ok? {
      var fs, gs := Fields(nfc, es).value, Fields(nfc, ds).value;
      FieldsUnambiguous(nfc, es);
      FieldsUnambiguous(nfc, ds);
      InsertedFields(fs);
      InsertedFields(gs);
      forall f
        ensures f in fs <==> f in gs
      {
        FieldMembers(nfc, es, f);
        FieldMembers(nfc, ds, f);
      }
      SortedUnique(InsertAll([], fs), InsertAll([], gs));
    }
  }

  lemma EntriesFailSet(nfc: Nfc, es: seq<Entry>, ds: seq<Entry>)
    requires forall e :: e in es <==> e in ds
    ensures CollectEntries(nfc, es).Ok? <==> CollectEntries(nfc, ds).Ok?
  {
    hide CollectEntries, AdmissibleEntry;
    EntriesFail(nfc, es);
    EntriesFail(nfc, ds);
    assert forall i :: 0 <= i < |es| ==> es[i] in ds;
    assert forall i :: 0 <= i < |ds| ==> ds[i] in es;
  }
}
