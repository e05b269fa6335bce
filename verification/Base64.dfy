/** Standard base64 with canonical padding (section 4 of RFC 4648), as used by
    `to_base64` and `from_base64` of shared/crypto/src/ed25519.rs. */
module Base64 {
  import opened Wrappers
  import opened Words

  type Sextet = x: int | 0 <= x < 64

  function Symbol(v: Sextet): char {
    if v < 26 then ('A' as int + v) as char
    else if v < 52 then ('a' as int + v - 26) as char
    else if v < 62 then ('0' as int + v - 52) as char
    else if v == 62 then '+' else '/'
  }

  function Value(c: char): Option<Sextet> {
    if 'A' <= c <= 'Z' then Some(c as int - 'A' as int)
    else if 'a' <= c <= 'z' then Some(c as int - 'a' as int + 26)
    else if '0' <= c <= '9' then Some(c as int - '0' as int + 52)
    else if c == '+' then Some(62)
    else if c == '/' then Some(63)
    else None
  }

  // The four sextets of three octets, and back.
  function First(a: byte): Sextet { a / 4 }
  function Second(a: byte, b: byte): Sextet { a % 4 * 16 + b / 16 }
  function Third(b: byte, c: byte): Sextet { b % 16 * 4 + c / 64 }
  function Fourth(c: byte): Sextet { c % 64 }
  function High(v: Sextet, w: Sextet): byte { v * 4 + w / 16 }
  function Middle(v: Sextet, w: Sextet): byte { v % 16 * 16 + w / 4 }
  function Low(v: Sextet, w: Sextet): byte { v % 4 * 64 + w }

  function Encode(b: Bytes): string {
    if |b| == 0 then ""
    else if |b| == 1 then
      [Symbol(First(b[0])), Symbol(Second(b[0], 0)), '=', '=']
    else if |b| == 2 then
      [Symbol(First(b[0])), Symbol(Second(b[0], b[1])), Symbol(Third(b[1], 0)), '=']
    else
      [Symbol(First(b[0])), Symbol(Second(b[0], b[1])), Symbol(Third(b[1], b[2])), Symbol(Fourth(b[2]))]
      + Encode(b[3..])
  }

  /** The strict decoder: only the four-character groups `Encode` can emit are
      accepted, padding only at the end, unused bits zero. */
  function Decode(s: string): Option<Bytes> {
    if s == "" then Some([])
    else if |s| < 4 then None
    else match (Value(s[0]), Value(s[1]))
      case (Some(v0), Some(v1)) =>
        if s[2] == '=' then
          if |s| == 4 && s[3] == '=' && v1 % 16 == 0 then Some([High(v0, v1)]) else None
        else if s[3] == '=' then
          match Value(s[2])
            case Some(v2) =>
              if |s| == 4 && v2 % 4 == 0 then Some([High(v0, v1), Middle(v1, v2)]) else None
            case None => None
        else
          (match (Value(s[2]), Value(s[3]), Decode(s[4..]))
            case (Some(v2), Some(v3), Some(rest)) =>
              Some([High(v0, v1), Middle(v1, v2), Low(v2, v3)] + rest)
            case _ => None)
      case _ => None
  }

  /** `from_base64`: the empty string is refused. */
  function FromBase64(s: string): Option<Bytes> {
    if s == "" then None else Decode(s)
  }

  lemma {:induction false} EncodedLength(b: Bytes)
    ensures |Encode(b)| == CeilDiv(|b|, 3) * 4
  {
    hide Symbol, First, Second, Third, Fourth;
    if |b| >= 3 {
      EncodedLength(b[3..]);
    }
  }

  lemma SymbolValue(v: Sextet)
    ensures Value(Symbol(v)) == Some(v) && Symbol(v) != '='
  {}

  lemma ValueSymbol(c: char)
    requires Value(c).Some?
    ensures Symbol(Value(c).value) == c
  {}

  /** Table 1 of RFC 4648, written out. */
  lemma Alphabet(v: Sextet)
    ensures v < 26 ==> Symbol(v) == "ABCDEFGHIJKLMNOPQRSTUVWXYZ"[v]
    ensures 26 <= v < 52 ==> Symbol(v) == "abcdefghijklmnopqrstuvwxyz"[v - 26]
    ensures 52 <= v ==> Symbol(v) == "0123456789+/"[v - 52]
  {}

  /** A group of four characters is the same number as its three octets, first ones
      highest; missing octets count as zero. */
  lemma GroupValue(a: byte, b: byte, c: byte)
    ensures ((First(a) * 64 + Second(a, b)) * 64 + Third(b, c)) * 64 + Fourth(c) == (a * 256 + b) * 256 + c
  {}

  lemma Regroup(a: byte, b: byte, c: byte)
    ensures High(First(a), Second(a, b)) == a
    ensures Middle(Second(a, b), Third(b, c)) == b
    ensures Low(Third(b, c), Fourth(c)) == c
    ensures Second(a, 0) % 16 == 0 && Third(b, 0) % 4 == 0
  {}

  lemma Ungroup(v: Sextet, w: Sextet, x: Sextet, y: Sextet)
    ensures First(High(v, w)) == v
    ensures Second(High(v, w), Middle(w, x)) == w
    ensures Third(Middle(w, x), Low(x, y)) == x
    ensures Fourth(Low(x, y)) == y
    ensures w % 16 == 0 ==> Second(High(v, w), 0) == w
    ensures x % 4 == 0 ==> Third(Middle(w, x), 0) == x
  {}

  lemma {:induction false} DecodeEncode(b: Bytes)
    ensures Decode(Encode(b)) == Some(b)
  {
    hide Symbol, Value, First, Second, Third, Fourth, High, Middle, Low;
    if |b| == 0 {
    } else if |b| == 1 {
      SymbolValue(First(b[0]));
      SymbolValue(Second(b[0], 0));
      Regroup(b[0], 0, 0);
      assert b == [b[0]];
    } else if |b| == 2 {
      SymbolValue(First(b[0]));
      SymbolValue(Second(b[0], b[1]));
      SymbolValue(Third(b[1], 0));
      Regroup(b[0], b[1], 0);
      assert b == [b[0], b[1]];
    } else {
      DecodeEncode(b[3..]);
      SymbolValue(First(b[0]));
      SymbolValue(Second(b[0], b[1]));
      SymbolValue(Third(b[1], b[2]));
      SymbolValue(Fourth(b[2]));
      Regroup(b[0], b[1], b[2]);
      assert Encode(b)[4..] == Encode(b[3..]);
      assert b == [b[0], b[1], b[2]] + b[3..];
    }
  }

  lemma {:induction false} EncodeDecode(s: string)
    requires Decode(s).Some?
    ensures Encode(Decode(s).value) == s
  {
    hide Symbol, Value, First, Second, Third, Fourth, High, Middle, Low;
    if s != "" {
      ValueSymbol(s[0]);
      ValueSymbol(s[1]);
      var v0, v1 := Value(s[0]).value, Value(s[1]).value;
      if s[2] == '=' {
        Ungroup(v0, v1, 0, 0);
        assert s == [s[0], s[1], s[2], s[3]];
      } else {
        ValueSymbol(s[2]);
        var v2 := Value(s[2]).value;
        if s[3] == '=' {
          Ungroup(v0, v1, v2, 0);
          assert s == [s[0], s[1], s[2], s[3]];
        } else {
          ValueSymbol(s[3]);
          Ungroup(v0, v1, v2, Value(s[3]).value);
          EncodeDecode(s[4..]);
          var b := Decode(s).value;
          assert b[3..] == Decode(s[4..]).value;
          assert s == [s[0], s[1], s[2], s[3]] + s[4..];
        }
      }
    }
  }

  /** Encoding and decoding are mutually inverse bijections between non-empty
      byte strings and the accepted texts, so a piece has one spelling. */
  lemma Bijection(b: Bytes, s: string)
    ensures FromBase64(s) == Some(b) <==> b != [] && s == Encode(b)
  {
    DecodeEncode(b);
    if Decode(s).Some? {
      EncodeDecode(s);
    }
  }
}
