/** UTF-8 (section 3 of RFC 3629): how a `String` is laid out in bytes, which is
    also what `Ord for String` compares. A Dafny `char` is a Unicode scalar
    value, like a Rust `char`. */
module Utf8 {
  import opened Wrappers
  import opened Words

  // The six-bit groups of a scalar value, from the right.
  function Rest(n: nat): nat { n / 0x40 }
  function Tail(n: nat): byte { 0x80 + n % 0x40 }

  function EncodeChar(c: char): Bytes {
    var n := c as int;
    if n < 0x80 then [n]
    else if n < 0x800 then [0xC0 + Rest(n), Tail(n)]
    else if n < 0x1_0000 then [0xE0 + Rest(Rest(n)), Tail(Rest(n)), Tail(n)]
    else [0xF0 + Rest(Rest(Rest(n))), Tail(Rest(Rest(n))), Tail(Rest(n)), Tail(n)]
  }

  function Encode(s: string): Bytes {
    if s == [] then [] else EncodeChar(s[0]) + Encode(s[1..])
  }

  /** How many bytes the character starting with `b` takes, and its value. */
  function Width(b: byte): nat {
    if b < 0x80 then 1 else if b < 0xE0 then 2 else if b < 0xF0 then 3 else 4
  }

  function Join(high: int, tail: byte): int { high * 0x40 + (tail - 0x80) }

  function CodePoint(b: Bytes): int
    requires b != [] && |b| >= Width(b[0])
  {
    var lead: int := b[0];
    match Width(lead)
    case 1 => lead
    case 2 => Join(lead - 0xC0, b[1])
    case 3 => Join(Join(lead - 0xE0, b[1]), b[2])
    case _ => Join(Join(Join(lead - 0xF0, b[1]), b[2]), b[3])
  }

  predicate IsScalar(n: int) {
    0 <= n < 0xD800 || 0xE000 <= n < 0x11_0000
  }

  /** The smallest value that takes this many bytes. */
  function Least(width: nat): nat {
    match width case 1 => 0 case 2 => 0x80 case 3 => 0x800 case _ => 0x1_0000
  }

  /** A well-formed character comes first: as short as it can be, continued by
      continuation bytes only. */
  predicate StartsWell(b: Bytes) {
    && b != [] && (b[0] < 0x80 || 0xC0 <= b[0] < 0xF8) && |b| >= Width(b[0])
    && (forall i :: 1 <= i < Width(b[0]) ==> 0x80 <= b[i] < 0xC0)
    && IsScalar(CodePoint(b)) && CodePoint(b) >= Least(Width(b[0]))
  }

  /** The strict decoder of section 3 of RFC 3629. */
  function Decode(b: Bytes): Option<string> {
    if b == [] then Some([])
    else if !StartsWell(b) then None
    else match Decode(b[Width(b[0])..])
      case None => None
      case Some(s) => Some([CodePoint(b) as char] + s)
  }

  lemma JoinTail(n: nat)
    ensures Join(Rest(n), Tail(n)) == n
  {}

  lemma LeadByte(c: char)
    ensures Width(EncodeChar(c)[0]) == |EncodeChar(c)|
  {}

  lemma WellEncoded(c: char)
    ensures var u := EncodeChar(c);
            && u != [] && (u[0] < 0x80 || 0xC0 <= u[0] < 0xF8) && IsScalar(c as int)
            && (forall i :: 1 <= i < |u| ==> 0x80 <= u[i] < 0xC0) && c as int >= Least(|u|)
  {}

  lemma CharDecodes(c: char, rest: Bytes)
    ensures EncodeChar(c) != []
    ensures var b := EncodeChar(c) + rest;
            && StartsWell(b) && Width(b[0]) == |EncodeChar(c)| && CodePoint(b) == c as int
            && b[Width(b[0])..] == rest
  {
    var n := c as int;
    var u := EncodeChar(c);
    var b := u + rest;
    LeadByte(c);
    assert b[|u|..] == rest;
    JoinTail(n);
    JoinTail(Rest(n));
    JoinTail(Rest(Rest(n)));
    WellEncoded(c);
    hide Join, Rest, Tail, Width;
    assert forall i :: 0 <= i < |u| ==> b[i] == u[i];
  }

  lemma {:induction false} DecodeEncode(s: string)
    ensures Decode(Encode(s)) == Some(s)
  {
    hide EncodeChar, CodePoint, Width, StartsWell;
    if s != [] {
      var b := EncodeChar(s[0]) + Encode(s[1..]);
      CharDecodes(s[0], Encode(s[1..]));
      DecodeEncode(s[1..]);
      assert Encode(s) == b && b != [];
      assert s == [s[0]] + s[1..];
    }
  }

  /** A well-formed character is the encoding of its value. */
  lemma CharEncodes(b: Bytes)
    requires StartsWell(b)
    ensures 0 < Width(b[0]) <= |b|
    ensures EncodeChar(CodePoint(b) as char) == b[..Width(b[0])]
  {
    var n := CodePoint(b);
    var w := Width(b[0]);
    forall x: int, t: byte | x >= 0 && 0x80 <= t < 0xC0
      ensures Join(x, t) >= 0 && Rest(Join(x, t)) == x && Tail(Join(x, t)) == t
    {
      JoinParts(x, t);
    }
    hide Join, Rest, Tail;
    assert b[..w] == if w == 1 then [b[0]] else if w == 2 then [b[0], b[1]] else if w == 3 then [b[0], b[1], b[2]]
      else [b[0], b[1], b[2], b[3]];
  }

  lemma JoinParts(x: nat, t: byte)
    requires 0x80 <= t < 0xC0
    ensures Join(x, t) >= 0 && Rest(Join(x, t)) == x && Tail(Join(x, t)) == t
  {}

  /** So decoding is undone by encoding, too: one spelling per string. */
  lemma {:induction false} EncodeDecode(b: Bytes)
    requires Decode(b).Some?
    ensures Encode(Decode(b).value) == b
  {
    hide EncodeChar, CodePoint, Width, StartsWell;
    if b != [] {
      CharEncodes(b);
      var rest := b[Width(b[0])..];
      EncodeDecode(rest);
      var s := Decode(b).value;
      assert s[1..] == Decode(rest).value;
      assert b == b[..Width(b[0])] + rest;
    }
  }

  /** A byte below 0x20 can only come from a character below 0x20. */
  lemma {:induction false} NoControlBytes(s: string)
    requires forall c :: c in s ==> c >= ' '
    ensures forall b :: b in Encode(s) ==> b >= 0x20
  {
    if s != [] {
      assert forall c :: c in s[1..] ==> c in s;
      NoControlBytes(s[1..]);
      assert s[0] in s;
      assert forall b :: b in EncodeChar(s[0]) ==> b >= 0x20;
    }
  }
}
