/** The collected value tree of shared/manifest/src/canonical.rs: `Node`, its
    sorted objects, and lookup in them. */
module JsonTree {
  import opened Wrappers
  import opened Words
  import Utf8

  datatype Number = PosInt(unsigned: u64) | NegInt(signed: i64)

  datatype Node =
    | Null
    | Bool(flag: bool)
    | Number(number: Number)
    | String(text: string)
    | Array(items: seq<Node>)
    | Object(fields: seq<Field>)

  /** One entry of a `BTreeMap<String, Node>`; the map is the list of its entries
      in key order. */
  datatype Field = Field(key: string, value: Node)

  // ----- the order of keys: `Ord for String` compares the UTF-8 bytes -----

  predicate BytesLess(a: Bytes, b: Bytes) {
    b != [] && (a == [] || a[0] < b[0] || (a[0] == b[0] && BytesLess(a[1..], b[1..])))
  }

  predicate KeyLess(a: string, b: string) {
    BytesLess(Utf8.Encode(a), Utf8.Encode(b))
  }

  lemma {:induction false} BytesTotal(a: Bytes, b: Bytes)
    ensures BytesLess(a, b) || BytesLess(b, a) || a == b
    ensures !(BytesLess(a, b) && BytesLess(b, a))
    ensures !BytesLess(a, a)
  {
    if a != [] {
      BytesTotal(a[1..], a[1..]);
      if b != [] && a[0] == b[0] {
        BytesTotal(a[1..], b[1..]);
        assert a == [a[0]] + a[1..] && b == [b[0]] + b[1..];
      }
    }
  }

  lemma {:induction false} BytesTransitive(a: Bytes, b: Bytes, c: Bytes)
    requires BytesLess(a, b) && BytesLess(b, c)
    ensures BytesLess(a, c)
  {
    if a != [] && a[0] == b[0] && b[0] == c[0] {
      BytesTransitive(a[1..], b[1..], c[1..]);
    }
  }

  lemma KeyTotal(a: string, b: string)
    ensures KeyLess(a, b) || KeyLess(b, a) || a == b
    ensures KeyLess(a, b) ==> !KeyLess(b, a) && a != b
  {
    BytesTotal(Utf8.Encode(a), Utf8.Encode(b));
    Utf8.DecodeEncode(a);
    Utf8.DecodeEncode(b);
  }

  lemma KeyTransitive(a: string, b: string, c: string)
    requires KeyLess(a, b) && KeyLess(b, c)
    ensures KeyLess(a, c)
  {
    BytesTransitive(Utf8.Encode(a), Utf8.Encode(b), Utf8.Encode(c));
  }

  // ----- the order of the bytes is the order of the characters -----

  predicate CharsLess(a: string, b: string) {
    b != [] && (a == [] || a[0] < b[0] || (a[0] == b[0] && CharsLess(a[1..], b[1..])))
  }

  lemma {:induction false} PrefixLess(u: Bytes, a: Bytes, b: Bytes)
    ensures BytesLess(u + a, u + b) <==> BytesLess(a, b)
  {
    if u == [] {
      assert u + a == a && u + b == b;
    } else {
      PrefixLess(u[1..], a, b);
      assert (u + a)[1..] == u[1..] + a && (u + b)[1..] == u[1..] + b;
    }
  }

  /** Where two encodings first differ, the smaller character has the smaller byte. */
  lemma DifferAt(c: char, d: char) returns (k: nat)
    requires c < d
    ensures var u, v := Utf8.EncodeChar(c), Utf8.EncodeChar(d);
            k < |u| && k < |v| && u[..k] == v[..k] && u[k] < v[k]
  {
    var m, n := c as int, d as int;
    var u, v := Utf8.EncodeChar(c), Utf8.EncodeChar(d);
    if |u| < |v| || u[0] != v[0] {
      k := 0;
    } else if u[1] != v[1] {
      k := 1;
    } else if u[2] != v[2] {
      k := 2;
    } else {
      k := 3;
    }
  }

  lemma CharLess(c: char, d: char, a: Bytes, b: Bytes)
    requires c < d
    ensures BytesLess(Utf8.EncodeChar(c) + a, Utf8.EncodeChar(d) + b)
    ensures !BytesLess(Utf8.EncodeChar(d) + b, Utf8.EncodeChar(c) + a)
  {
    var u, v := Utf8.EncodeChar(c) + a, Utf8.EncodeChar(d) + b;
    var k := DifferAt(c, d);
    hide Utf8.EncodeChar;
    assert u[..k] == v[..k] && u == u[..k] + u[k..] && v == v[..k] + v[k..];
    PrefixLess(u[..k], u[k..], v[k..]);
    PrefixLess(u[..k], v[k..], u[k..]);
  }

  /** Keys are ordered as their characters are: "lexicographic" means both. */
  lemma {:induction false} KeyOrder(a: string, b: string)
    ensures KeyLess(a, b) <==> CharsLess(a, b)
  {
    if a != [] && b != [] {
      var x, y := Utf8.Encode(a[1..]), Utf8.Encode(b[1..]);
      assert Utf8.Encode(a) == Utf8.EncodeChar(a[0]) + x && Utf8.Encode(b) == Utf8.EncodeChar(b[0]) + y;
      if a[0] < b[0] {
        CharLess(a[0], b[0], x, y);
      } else if b[0] < a[0] {
        CharLess(b[0], a[0], y, x);
      } else {
        KeyOrder(a[1..], b[1..]);
        PrefixLess(Utf8.EncodeChar(a[0]), x, y);
      }
    }
  }

  // ----- sorted entries -----

  /** Every key after the first is greater than it, and so on: strictly increasing. */
  predicate Increasing(fs: seq<Field>) {
    forall i, j :: 0 <= i < j < |fs| ==> KeyLess(fs[i].key, fs[j].key)
  }

  /** Keys strictly increase at every depth. */
  predicate Sorted(n: Node) {
    match n
    case Array(items) => forall i :: 0 <= i < |items| ==> Sorted(items[i])
    case Object(fields) => Increasing(fields) && forall i :: 0 <= i < |fields| ==> Sorted(fields[i].value)
    case _ => true
  }

  /** `BTreeMap::insert`: an equal key is replaced. */
  function Insert(fs: seq<Field>, f: Field): seq<Field> {
    if fs == [] then [f]
    else if KeyLess(fs[0].key, f.key) then [fs[0]] + Insert(fs[1..], f)
    else if fs[0].key == f.key then [f] + fs[1..]
    else [f] + fs
  }

  function InsertAll(fs: seq<Field>, es: seq<Field>): seq<Field> {
    if es == [] then fs else Insert(InsertAll(fs, es[..|es| - 1]), es[|es| - 1])
  }

  function Lookup(fs: seq<Field>, key: string): Option<Node> {
    if fs == [] then None else if fs[0].key == key then Some(fs[0].value) else Lookup(fs[1..], key)
  }

  lemma {:induction false} InsertMembers(fs: seq<Field>, f: Field)
    ensures forall g :: g in Insert(fs, f) ==> g == f || g in fs
  {
    hide KeyLess;
    if fs != [] {
      InsertMembers(fs[1..], f);
      assert fs == [fs[0]] + fs[1..];
    }
  }

  lemma IncreasingCons(g: Field, fs: seq<Field>)
    requires Increasing(fs) && forall h :: h in fs ==> KeyLess(g.key, h.key)
    ensures Increasing([g] + fs)
  {
    hide KeyLess;
    var r := [g] + fs;
    forall i, j | 0 <= i < j < |r|
      ensures KeyLess(r[i].key, r[j].key)
    {
      assert r[j] == fs[j - 1] && r[j] in fs;
    }
  }

  lemma IncreasingTail(fs: seq<Field>)
    requires Increasing(fs) && fs != []
    ensures Increasing(fs[1..]) && forall h :: h in fs[1..] ==> KeyLess(fs[0].key, h.key)
  {
    hide KeyLess;
    forall h | h in fs[1..]
      ensures KeyLess(fs[0].key, h.key)
    {
      var i :| 0 <= i < |fs| - 1 && fs[1..][i] == h;
      assert fs[i + 1] == h;
    }
  }

  lemma {:induction false} InsertKeepsOrder(fs: seq<Field>, f: Field)
    requires Increasing(fs)
    ensures Increasing(Insert(fs, f))
  {
    hide KeyLess, Increasing;
    if fs == [] {
      IncreasingOne(f);
    } else {
      IncreasingTail(fs);
      KeyTotal(fs[0].key, f.key);
      if KeyLess(fs[0].key, f.key) {
        InsertKeepsOrder(fs[1..], f);
        InsertMembers(fs[1..], f);
        IncreasingCons(fs[0], Insert(fs[1..], f));
      } else if fs[0].key == f.key {
        IncreasingCons(f, fs[1..]);
      } else {
        forall h | h in fs
          ensures KeyLess(f.key, h.key)
        {
          assert fs == [fs[0]] + fs[1..];
          if h in fs[1..] {
            KeyTransitive(f.key, fs[0].key, h.key);
          }
        }
        IncreasingCons(f, fs);
      }
    }
  }

  lemma IncreasingOne(f: Field)
    ensures Increasing([f])
  {}

  lemma {:induction false} LookupInsert(fs: seq<Field>, f: Field, key: string)
    ensures Lookup(Insert(fs, f), key) == if key == f.key then Some(f.value) else Lookup(fs, key)
  {
    hide KeyLess;
    if fs != [] {
      KeyTotal(fs[0].key, f.key);
      if KeyLess(fs[0].key, f.key) {
        LookupInsert(fs[1..], f, key);
        assert Insert(fs, f)[1..] == Insert(fs[1..], f);
      } else if fs[0].key == f.key {
        assert Insert(fs, f)[1..] == fs[1..];
      } else {
        assert Insert(fs, f)[1..] == fs;
      }
    }
  }

  lemma {:induction false} InsertAllIncreasing(fs: seq<Field>, es: seq<Field>)
    requires Increasing(fs)
    ensures Increasing(InsertAll(fs, es))
  {
    hide Increasing, Insert;
    if es != [] {
      InsertAllIncreasing(fs, es[..|es| - 1]);
      InsertKeepsOrder(InsertAll(fs, es[..|es| - 1]), es[|es| - 1]);
    }
  }

  /** One value per key. */
  predicate Unambiguous(es: seq<Field>) {
    forall f, g :: f in es && g in es && f.key == g.key ==> f == g
  }

  /** An object built from unambiguous entries holds exactly them. */
  lemma {:induction false} LookupAll(es: seq<Field>, key: string)
    requires Unambiguous(es)
    ensures forall value :: Lookup(InsertAll([], es), key) == Some(value) <==> Field(key, value) in es
  {
    hide Insert, Lookup;
    if es == [] {
      NothingInEmpty(key);
    } else {
      var n := |es| - 1;
      assert es == es[..n] + [es[n]];
      LookupAll(es[..n], key);
      LookupInsert(InsertAll([], es[..n]), es[n], key);
      assert es[n] == Field(es[n].key, es[n].value);
    }
  }

  lemma NothingInEmpty(key: string)
    ensures Lookup([], key) == None
  {}

  // ----- a sorted list of entries is determined by its lookups -----

  lemma {:induction false} LookupMembers(fs: seq<Field>, key: string)
    requires Increasing(fs)
    ensures forall value :: Lookup(fs, key) == Some(value) <==> Field(key, value) in fs
  {
    hide KeyLess, Increasing;
    if fs != [] {
      IncreasingTail(fs);
      LookupMembers(fs[1..], key);
      assert fs == [fs[0]] + fs[1..];
      forall h | h in fs[1..]
        ensures h.key != fs[0].key
      {
        KeyTotal(fs[0].key, h.key);
      }
      assert fs[0] == Field(fs[0].key, fs[0].value);
    }
  }

  /** Two sorted lists with the same entries are the same list. */
  lemma {:induction false} SortedUnique(fs: seq<Field>, gs: seq<Field>)
    requires Increasing(fs) && Increasing(gs)
    requires forall f :: f in fs <==> f in gs
    ensures fs == gs
  {
    hide KeyLess, Increasing;
    assert gs == [] || gs[0] in gs;
    if fs != [] {
      assert fs[0] in fs;
      IncreasingTail(fs);
      IncreasingTail(gs);
      assert fs == [fs[0]] + fs[1..] && gs == [gs[0]] + gs[1..];
      KeyTotal(fs[0].key, gs[0].key);
      assert fs[0] == gs[0];
      forall f
        ensures f in fs[1..] <==> f in gs[1..]
      {
        KeyTotal(fs[0].key, f.key);
        assert f in fs <==> f == fs[0] || f in fs[1..];
        assert f in gs <==> f == fs[0] || f in gs[1..];
      }
      SortedUnique(fs[1..], gs[1..]);
    }
  }
}
