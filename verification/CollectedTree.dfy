/** The tree of an admissible value, and how its members are found in it again. */
module CollectedTree {
  import opened Wrappers
  import opened JsonTree
  import opened JsonText
  import opened Canonical

  function Tree(nfc: Nfc, v: Value): Node {
    match Collect(nfc, v) case Ok(n) => n case Err(_) => Null
  }

  /** The value under `key`, or null. */
  function At(n: Node, key: string): Node {
    if !n.Object? then Null
    else match Lookup(n.fields, key) case Some(v) => v case None => Null
  }

  lemma {:induction false} LookupErased(fs: seq<Field>, key: string)
    ensures Lookup(EraseFields(fs), key)
            == match Lookup(fs, key) { case Some(v) => Some(Erase(v)) case None => None }
  {
    hide Erase;
    if fs != [] {
      LookupErased(fs[1..], key);
      assert EraseFields(fs)[1..] == EraseFields(fs[1..]);
    }
  }

  lemma AtErased(n: Node, key: string)
    ensures At(Erase(n), key) == Erase(At(n, key))
  {
    if n.Object? {
      LookupErased(n.fields, key);
    }
  }

  // ----- structs -----

  predicate DistinctNames(ms: seq<Member>) {
    forall m, k :: m in ms && k in ms && m.name == k.name ==> m == k
  }

  function MemberFields(nfc: Nfc, ms: seq<Member>): (fs: seq<Field>)
    ensures |fs| == |ms|
    ensures forall i :: 0 <= i < |ms| ==> fs[i] == Field(ms[i].name, Tree(nfc, ms[i].value))
  {
    seq(|ms|, i requires 0 <= i < |ms| => Field(ms[i].name, Tree(nfc, ms[i].value)))
  }

  lemma {:induction false} MembersInserted(nfc: Nfc, ms: seq<Member>)
    requires CollectMembers(nfc, ms).Ok?
    ensures CollectMembers(nfc, ms) == Ok(InsertAll([], MemberFields(nfc, ms)))
  {
    hide Collect, Insert;
    if ms != [] {
      var n := |ms| - 1;
      MembersInserted(nfc, ms[..n]);
      assert MemberFields(nfc, ms)[..n] == MemberFields(nfc, ms[..n]);
    }
  }

  lemma MembersUnambiguous(nfc: Nfc, ms: seq<Member>)
    requires DistinctNames(ms)
    ensures Unambiguous(MemberFields(nfc, ms))
  {
    hide Tree;
    var fs := MemberFields(nfc, ms);
    forall f, g | f in fs && g in fs && f.key == g.key
      ensures f == g
    {
      var i :| 0 <= i < |fs| && fs[i] == f;
      var j :| 0 <= j < |fs| && fs[j] == g;
      assert ms[i] in ms && ms[j] in ms;
    }
  }

  /** A member of a struct is found under its name; other names are absent. */
  lemma StructAt(nfc: Nfc, ms: seq<Member>, name: string)
    requires DistinctNames(ms) && Admissible(Struct(ms))
    ensures forall m :: m in ms && m.name == name ==> At(Tree(nfc, Struct(ms)), name) == Tree(nfc, m.value)
    ensures (forall m :: m in ms ==> m.name != name) ==> At(Tree(nfc, Struct(ms)), name) == Null
  {
    hide Admissible, DistinctNames, Unambiguous, InsertAll, Lookup, CollectMembers;
    CollectFails(nfc, Struct(ms));
    MembersInserted(nfc, ms);
    MembersUnambiguous(nfc, ms);
    var fs := MemberFields(nfc, ms);
    var n := Tree(nfc, Struct(ms));
    assert n == Object(InsertAll([], fs));
    hide Collect, Tree;
    LookupAll(fs, name);
    forall m | m in ms && m.name == name
      ensures At(n, name) == Tree(nfc, m.value)
    {
      var i :| 0 <= i < |ms| && ms[i] == m;
      assert fs[i] in fs && fs[i] == Field(name, Tree(nfc, m.value));
    }
    if forall m :: m in ms ==> m.name != name {
      if Lookup(n.fields, name).Some? {
        NameOf(nfc, ms, Field(name, Lookup(n.fields, name).value));
      }
    }
  }

  lemma NameOf(nfc: Nfc, ms: seq<Member>, f: Field)
    requires f in MemberFields(nfc, ms)
    ensures exists m :: m in ms && m.name == f.key
  {
    var i :| 0 <= i < |ms| && MemberFields(nfc, ms)[i] == f;
    assert ms[i] in ms;
  }

  /** Structs with the same names and the same collected values collect alike. */
  lemma {:induction false} MembersCongruent(nfc: Nfc, ms: seq<Member>, ns: seq<Member>)
    requires |ms| == |ns|
    requires forall i :: 0 <= i < |ms| ==> ms[i].name == ns[i].name && Collect(nfc, ms[i].value) == Collect(nfc, ns[i].value)
    ensures CollectMembers(nfc, ms) == CollectMembers(nfc, ns)
  {
    hide Collect, Insert;
    if ms != [] {
      MembersCongruent(nfc, ms[..|ms| - 1], ns[..|ns| - 1]);
    }
  }

  // ----- sequences -----

  lemma {:induction false} ItemsCollected(nfc: Nfc, vs: seq<Value>)
    requires CollectItems(nfc, vs).Ok?
    ensures var ns := CollectItems(nfc, vs).value;
            |ns| == |vs| && forall i :: 0 <= i < |vs| ==> ns[i] == Tree(nfc, vs[i])
  {
    hide Collect;
    if vs != [] {
      ItemsCollected(nfc, vs[..|vs| - 1]);
    }
  }

  lemma {:induction false} EraseItemsAt(ns: seq<Node>)
    ensures |EraseItems(ns)| == |ns| && forall i :: 0 <= i < |ns| ==> EraseItems(ns)[i] == Erase(ns[i])
  {
    hide Erase;
    if ns != [] {
      EraseItemsAt(ns[1..]);
    }
  }

  /** The elements of a sequence are found in order. */
  lemma SequenceAt(nfc: Nfc, vs: seq<Value>)
    requires Admissible(Sequence(vs))
    ensures var n := Erase(Tree(nfc, Sequence(vs)));
            && n.Array? && |n.items| == |vs|
            && forall i :: 0 <= i < |vs| ==> n.items[i] == Erase(Tree(nfc, vs[i]))
  {
    hide Admissible, CollectItems, EraseItems;
    CollectFails(nfc, Sequence(vs));
    ItemsCollected(nfc, vs);
    EraseItemsAt(CollectItems(nfc, vs).value);
  }

  lemma {:induction false} ItemsCongruent(nfc: Nfc, vs: seq<Value>, ws: seq<Value>)
    requires |vs| == |ws|
    requires forall i :: 0 <= i < |vs| ==> Collect(nfc, vs[i]) == Collect(nfc, ws[i])
    ensures CollectItems(nfc, vs) == CollectItems(nfc, ws)
  {
    hide Collect;
    if vs != [] {
      ItemsCongruent(nfc, vs[..|vs| - 1], ws[..|ws| - 1]);
    }
  }
}
