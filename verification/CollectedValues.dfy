/** What each kind of value collects to (shared/manifest/src/canonical.rs:66-452):
    the leaves as text, variants as tagged objects, maps entry by entry, and
    which error a refused value reports. */
module CollectedValues {
  import opened Wrappers
  import opened Words
  import opened JsonTree
  import opened Canonical
  import opened CollectedTree
  import JsonText

  // ----- leaves -----

  /** How the leaves are printed. */
  lemma LeavesPrinted(nfc: Nfc, b: bool, i: i64, u: u64)
    ensures JsonText.Print(Tree(nfc, Flag(b))) == if b then "true" else "false"
    ensures JsonText.Print(Tree(nfc, Signed(i))) == (if i < 0 then "-" else "") + JsonText.Decimal(if i < 0 then -(i as int) else i)
    ensures JsonText.Print(Tree(nfc, Unsigned(u))) == JsonText.Decimal(u)
    ensures JsonText.Print(Tree(nfc, Absent)) == "null" && JsonText.Print(Tree(nfc, Unit)) == "null"
  {
    hide JsonText.Decimal;
  }

  /** The text of a value that collects to a string, before normalisation. */
  function TextOf(v: Value): string
    requires IsText(v)
  {
    match v
    case Character(c) => [c]
    case Text(s) => s
    case UnitVariant(name) => name
    case Present(w) => TextOf(w)
    case NewtypeStruct(w) => TextOf(w)
  }

  lemma {:induction false} TextNormalised(nfc: Nfc, v: Value)
    requires IsText(v)
    ensures Collect(nfc, v) == Ok(String(nfc(TextOf(v))))
  {
    match v {
      case Present(w) => TextNormalised(nfc, w);
      case NewtypeStruct(w) => TextNormalised(nfc, w);
      case _ =>
    }
  }

  // ----- variants -----

  lemma {:induction false} OneMember(nfc: Nfc, name: string, w: Value)
    ensures Collect(nfc, Struct([Member(name, w)])) == Wrap(name, Collect(nfc, w))
  {
    var ms := [Member(name, w)];
    assert ms[..0] == [] && CollectMembers(nfc, []) == Ok([]);
  }

  /** A variant with content collects like a struct with one member of its name, and
      wrappers are transparent. */
  lemma VariantsAreTagged(nfc: Nfc, name: string, w: Value, vs: seq<Value>, ms: seq<Member>)
    ensures Collect(nfc, NewtypeVariant(name, w)) == Collect(nfc, Struct([Member(name, w)]))
    ensures Collect(nfc, TupleVariant(name, vs)) == Collect(nfc, Struct([Member(name, Sequence(vs))]))
    ensures Collect(nfc, StructVariant(name, ms)) == Collect(nfc, Struct([Member(name, Struct(ms))]))
    ensures Collect(nfc, Present(w)) == Collect(nfc, NewtypeStruct(w)) == Collect(nfc, w)
  {
    OneMember(nfc, name, w);
    OneMember(nfc, name, Sequence(vs));
    OneMember(nfc, name, Struct(ms));
    hide CollectMembers, CollectItems;
  }

  // ----- maps -----

  /** The last entry of a map whose normalised key is `key`. */
  function LastUnder(nfc: Nfc, es: seq<Entry>, key: string): Option<Value> {
    if es == [] then None
    else
      var e := es[|es| - 1];
      if IsText(e.key) && nfc(TextOf(e.key)) == key then Some(e.value) else LastUnder(nfc, es[..|es| - 1], key)
  }

  /** An admissible map holds, under each normalised key, the value of its last entry with
      that key, and nothing else. */
  lemma {:induction false} MapAt(nfc: Nfc, es: seq<Entry>, key: string)
    requires CollectEntries(nfc, es).Ok?
    ensures Collect(nfc, Map(es)) == Ok(Object(CollectEntries(nfc, es).value))
    ensures Lookup(CollectEntries(nfc, es).value, key)
            == match LastUnder(nfc, es, key) { case None => None case Some(v) => Some(Tree(nfc, v)) }
  {
    hide Insert, Lookup;
    if es == [] {
      NothingInEmpty(key);
    } else {
      var n := |es| - 1;
      MapAt(nfc, es[..n], key);
      EntryCollected(nfc, es[n]);
      LookupInsert(CollectEntries(nfc, es[..n]).value, CollectEntry(nfc, es[n]).value, key);
    }
  }

  lemma EntryCollected(nfc: Nfc, e: Entry)
    requires CollectEntry(nfc, e).Ok?
    ensures IsText(e.key) && CollectEntry(nfc, e) == Ok(Field(nfc(TextOf(e.key)), Tree(nfc, e.value)))
  {
    hide Collect, IsText;
    TextCollects(nfc, e.key);
    TextNormalised(nfc, e.key);
  }

  // ----- errors -----

  /** What is refused in a value, in the order in which it is serialised. */
  function Refusals(v: Value): seq<CanonicalError>
    decreases v, 0
  {
    match v
    case Float => [InvalidNonFiniteFloat]
    case ByteString => [BytesNotAllowed]
    case Present(w) => Refusals(w)
    case NewtypeStruct(w) => Refusals(w)
    case NewtypeVariant(_, w) => Refusals(w)
    case Sequence(vs) => RefusedItems(vs)
    case TupleVariant(_, vs) => RefusedItems(vs)
    case Map(es) => RefusedEntries(es)
    case Struct(ms) => RefusedMembers(ms)
    case StructVariant(_, ms) => RefusedMembers(ms)
    case _ => []
  }

  function RefusedItems(vs: seq<Value>): seq<CanonicalError>
    decreases vs
  {
    if vs == [] then [] else Refusals(vs[0]) + RefusedItems(vs[1..])
  }

  function RefusedEntry(e: Entry): seq<CanonicalError>
    decreases e, 1
  {
    Refusals(e.key) + (if Refusals(e.key) == [] && !IsText(e.key) then [NonStringMapKey] else []) + Refusals(e.value)
  }

  function RefusedEntries(es: seq<Entry>): seq<CanonicalError>
    decreases es
  {
    if es == [] then [] else RefusedEntry(es[0]) + RefusedEntries(es[1..])
  }

  function RefusedMembers(ms: seq<Member>): seq<CanonicalError>
    decreases ms
  {
    if ms == [] then [] else Refusals(ms[0].value) + RefusedMembers(ms[1..])
  }

  /** `r` fails with the first of `errors`, and only if there are any. */
  predicate Reports<T>(r: Result<T, CanonicalError>, errors: seq<CanonicalError>) {
    (r.Ok? <==> errors == []) && (r.Err? && errors != [] ==> r.error == errors[0])
  }

  /** The first thing that is refused decides the error. */
  lemma {:induction false} FirstRefusal(nfc: Nfc, v: Value)
    ensures Reports(Collect(nfc, v), Refusals(v))
    decreases v, 0
  {
    hide CollectItems, CollectEntries, CollectMembers, RefusedItems, RefusedEntries, RefusedMembers;
    match v {
      case Present(w) => FirstRefusal(nfc, w);
      case NewtypeStruct(w) => FirstRefusal(nfc, w);
      case NewtypeVariant(name, w) => FirstRefusal(nfc, w);
      case Sequence(vs) => ItemsRefusal(nfc, vs);
      case TupleVariant(name, vs) => ItemsRefusal(nfc, vs);
      case Map(es) => EntriesRefusal(nfc, es);
      case Struct(ms) => MembersRefusal(nfc, ms);
      case StructVariant(name, ms) => MembersRefusal(nfc, ms);
      case _ =>
    }
  }

  lemma {:induction false} ItemsSnoc(vs: seq<Value>)
    requires vs != []
    ensures RefusedItems(vs) == RefusedItems(vs[..|vs| - 1]) + Refusals(vs[|vs| - 1])
  {
    hide Refusals;
    if |vs| > 1 {
      ItemsSnoc(vs[1..]);
      assert vs[..|vs| - 1][1..] == vs[1..][..|vs| - 2];
    } else {
      assert vs[..0] == [] && vs[1..] == [];
    }
  }

  lemma {:induction false} EntriesSnoc(es: seq<Entry>)
    requires es != []
    ensures RefusedEntries(es) == RefusedEntries(es[..|es| - 1]) + RefusedEntry(es[|es| - 1])
  {
    hide RefusedEntry;
    if |es| > 1 {
      EntriesSnoc(es[1..]);
      assert es[..|es| - 1][1..] == es[1..][..|es| - 2];
    } else {
      assert es[..0] == [] && es[1..] == [];
    }
  }

  lemma {:induction false} MembersSnoc(ms: seq<Member>)
    requires ms != []
    ensures RefusedMembers(ms) == RefusedMembers(ms[..|ms| - 1]) + Refusals(ms[|ms| - 1].value)
  {
    hide Refusals;
    if |ms| > 1 {
      MembersSnoc(ms[1..]);
      assert ms[..|ms| - 1][1..] == ms[1..][..|ms| - 2];
    } else {
      assert ms[..0] == [] && ms[1..] == [];
    }
  }

  lemma {:induction false} ItemsRefusal(nfc: Nfc, vs: seq<Value>)
    ensures Reports(CollectItems(nfc, vs), RefusedItems(vs))
    decreases vs
  {
    hide Collect, Refusals, RefusedItems;
    if vs == [] {
      NothingRefused();
    } else {
      ItemsSnoc(vs);
      ItemsRefusal(nfc, vs[..|vs| - 1]);
      FirstRefusal(nfc, vs[|vs| - 1]);
    }
  }

  lemma NothingRefused()
    ensures RefusedItems([]) == [] && RefusedEntries([]) == [] && RefusedMembers([]) == []
  {}

  lemma {:induction false} EntryRefusal(nfc: Nfc, e: Entry)
    ensures Reports(CollectEntry(nfc, e), RefusedEntry(e))
    decreases e, 1
  {
    hide Collect, Refusals, IsText;
    FirstRefusal(nfc, e.key);
    TextCollects(nfc, e.key);
    FirstRefusal(nfc, e.value);
  }

  lemma {:induction false} EntriesRefusal(nfc: Nfc, es: seq<Entry>)
    ensures Reports(CollectEntries(nfc, es), RefusedEntries(es))
    decreases es
  {
    hide CollectEntry, RefusedEntry, RefusedEntries, Insert;
    if es == [] {
      NothingRefused();
    } else {
      EntriesSnoc(es);
      EntriesRefusal(nfc, es[..|es| - 1]);
      EntryRefusal(nfc, es[|es| - 1]);
    }
  }

  lemma {:induction false} MembersRefusal(nfc: Nfc, ms: seq<Member>)
    ensures Reports(CollectMembers(nfc, ms), RefusedMembers(ms))
    decreases ms
  {
    hide Collect, Refusals, RefusedMembers, Insert;
    if ms == [] {
      NothingRefused();
    } else {
      MembersSnoc(ms);
      MembersRefusal(nfc, ms[..|ms| - 1]);
      FirstRefusal(nfc, ms[|ms| - 1].value);
    }
  }
}
