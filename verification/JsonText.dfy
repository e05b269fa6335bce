/** The compact JSON text that `serde_json` writes for a tree (sections 4, 6 and 7
    of RFC 8259), and a reader that undoes it. */
module JsonText {
  import opened Wrappers
  import opened JsonTree

  // ----- strings -----

  function HexDigit(n: nat): char
    requires n < 16
  {
    if n < 10 then ('0' as int + n) as char else ('a' as int + n - 10) as char
  }

  /** Only the quote, the backslash and what is below 0x20 are escaped. */
  function Escape(c: char): string {
    if c == '"' then ['\\', '"']
    else if c == '\\' then ['\\', '\\']
    else if c as int == 8 then ['\\', 'b']
    else if c as int == 9 then ['\\', 't']
    else if c as int == 10 then ['\\', 'n']
    else if c as int == 12 then ['\\', 'f']
    else if c as int == 13 then ['\\', 'r']
    else if c < ' ' then ['\\', 'u', '0', '0', HexDigit(c as int / 16), HexDigit(c as int % 16)]
    else [c]
  }

  function EscapeAll(s: string): string {
    if s == [] then [] else Escape(s[0]) + EscapeAll(s[1..])
  }

  function Quote(s: string): string {
    ['"'] + EscapeAll(s) + ['"']
  }

  // ----- numbers -----

  function Digit(n: nat): char
    requires n < 10
  {
    ('0' as int + n) as char
  }

  function Decimal(n: nat): string {
    if n < 10 then [Digit(n)] else Decimal(n / 10) + [Digit(n % 10)]
  }

  function Whole(n: Number): int {
    match n case PosInt(u) => u case NegInt(i) => i
  }

  function PrintInt(i: int): string {
    if i < 0 then ['-'] + Decimal(-i) else Decimal(i)
  }

  // ----- trees -----

  function Print(n: Node): string {
    match n
    case Null => "null"
    case Bool(b) => if b then "true" else "false"
    case Number(k) => PrintInt(Whole(k))
    case String(s) => Quote(s)
    case Array(items) => ['['] + PrintItems(items) + [']']
    case Object(fields) => ['{'] + PrintFields(fields) + ['}']
  }

  function PrintItems(items: seq<Node>): string {
    if items == [] then ""
    else if |items| == 1 then Print(items[0])
    else Print(items[0]) + [','] + PrintItems(items[1..])
  }

  function PrintField(f: Field): string {
    Quote(f.key) + [':'] + Print(f.value)
  }

  function PrintFields(fields: seq<Field>): string {
    if fields == [] then ""
    else if |fields| == 1 then PrintField(fields[0])
    else PrintField(fields[0]) + [','] + PrintFields(fields[1..])
  }

  // ----- what the text determines: the tree up to the tag of its numbers -----

  function Canonical(n: Number): Number {
    if Whole(n) >= 0 then PosInt(Whole(n)) else NegInt(Whole(n))
  }

  function Erase(n: Node): Node {
    match n
    case Number(k) => Node.Number(Canonical(k))
    case Array(items) => Array(EraseItems(items))
    case Object(fields) => Object(EraseFields(fields))
    case _ => n
  }

  function EraseItems(items: seq<Node>): seq<Node> {
    if items == [] then [] else [Erase(items[0])] + EraseItems(items[1..])
  }

  function EraseFields(fields: seq<Field>): seq<Field> {
    if fields == [] then []
    else [Field(fields[0].key, Erase(fields[0].value))] + EraseFields(fields[1..])
  }

  // ----- the reader -----

  // It accepts each value in the one spelling that is canonical.

  datatype Read<+T> = Read(value: T, rest: string)

  /** What has no escape of its own and must not stand for itself. */
  predicate IsControl(n: nat) {
    n < 32 && n != 8 && n != 9 && n != 10 && n != 12 && n != 13
  }

  function HexValue(c: char): Option<nat> {
    if '0' <= c <= '9' then Some(c as int - '0' as int)
    else if 'a' <= c <= 'f' then Some(c as int - 'a' as int + 10)
    else None
  }

  function ReadEscape(s: string): (r: Option<Read<char>>)
    ensures r.Some? ==> |r.value.rest| < |s|
  {
    if s == "" then None
    else if s[0] == '"' || s[0] == '\\' then Some(Read(s[0], s[1..]))
    else if s[0] == 'b' then Some(Read(8 as char, s[1..]))
    else if s[0] == 't' then Some(Read(9 as char, s[1..]))
    else if s[0] == 'n' then Some(Read(10 as char, s[1..]))
    else if s[0] == 'f' then Some(Read(12 as char, s[1..]))
    else if s[0] == 'r' then Some(Read(13 as char, s[1..]))
    else if s[0] == 'u' && |s| >= 5 && s[1] == '0' && s[2] == '0' then
      match (HexValue(s[3]), HexValue(s[4]))
      case (Some(h), Some(l)) => if IsControl(16 * h + l) then Some(Read((16 * h + l) as char, s[5..])) else None
      case _ => None
    else None
  }

  function ReadChar(s: string): (r: Option<Read<char>>)
    ensures r.Some? ==> |r.value.rest| < |s|
  {
    if s == "" then None
    else if s[0] == '\\' then ReadEscape(s[1..])
    else if s[0] == '"' || s[0] < ' ' then None
    else Some(Read(s[0], s[1..]))
  }

  /** The text up to the closing quote. */
  function ReadText(s: string): (r: Option<Read<string>>)
    ensures r.Some? ==> |r.value.rest| < |s|
    decreases |s|
  {
    if s == "" then None
    else if s[0] == '"' then Some(Read("", s[1..]))
    else match ReadChar(s)
      case None => None
      case Some(c) =>
        match ReadText(c.rest)
        case None => None
        case Some(t) => Some(Read([c.value] + t.value, t.rest))
  }

  predicate IsDigit(c: char) { '0' <= c <= '9' }

  function ReadDigits(s: string, acc: nat): (r: Read<nat>)
    ensures |r.rest| <= |s|
    decreases |s|
  {
    if s != "" && IsDigit(s[0]) then ReadDigits(s[1..], 10 * acc + (s[0] as int - '0' as int))
    else Read(acc, s)
  }

  function ReadNumber(s: string): (r: Option<Read<Node>>)
    ensures r.Some? ==> |r.value.rest| < |s|
  {
    if s == "" then None
    else if s[0] == '0' then Some(Read(Node.Number(PosInt(0)), s[1..]))
    else if IsDigit(s[0]) then
      var d := ReadDigits(s[1..], s[0] as int - '0' as int);
      if d.value < 0x1_0000_0000_0000_0000 then Some(Read(Node.Number(PosInt(d.value)), d.rest)) else None
    else if s[0] == '-' && |s| > 1 && IsDigit(s[1]) && s[1] != '0' then
      var d := ReadDigits(s[2..], s[1] as int - '0' as int);
      var i: int := -(d.value as int);
      if -0x8000_0000_0000_0000 <= i < 0 then Some(Read(Node.Number(NegInt(i)), d.rest)) else None
    else None
  }

  function ReadWord(s: string, word: string, n: Node): (r: Option<Read<Node>>)
    requires word != ""
    ensures r.Some? ==> |r.value.rest| < |s|
  {
    if |s| >= |word| && s[..|word|] == word then Some(Read(n, s[|word|..])) else None
  }

  function Parse(s: string): (r: Option<Read<Node>>)
    ensures r.Some? ==> |r.value.rest| < |s|
    decreases |s|, 0
  {
    if s == "" then None
    else if s[0] == 'n' then ReadWord(s, "null", Null)
    else if s[0] == 't' then ReadWord(s, "true", Bool(true))
    else if s[0] == 'f' then ReadWord(s, "false", Bool(false))
    else if s[0] == '"' then
      match ReadText(s[1..])
      case None => None
      case Some(t) => Some(Read(String(t.value), t.rest))
    else if s[0] == '[' then
      if |s| > 1 && s[1] == ']' then Some(Read(Array([]), s[2..]))
      else
        match ParseItems(s[1..])
        case None => None
        case Some(t) => Some(Read(Array(t.value), t.rest))
    else if s[0] == '{' then
      if |s| > 1 && s[1] == '}' then Some(Read(Object([]), s[2..]))
      else
        match ParseFields(s[1..])
        case None => None
        case Some(t) => Some(Read(Object(t.value), t.rest))
    else ReadNumber(s)
  }

  function ParseItems(s: string): (r: Option<Read<seq<Node>>>)
    ensures r.Some? ==> |r.value.rest| < |s|
    decreases |s|, 1
  {
    match Parse(s)
    case None => None
    case Some(v) =>
      if v.rest == "" then None
      else if v.rest[0] == ']' then Some(Read([v.value], v.rest[1..]))
      else if v.rest[0] == ',' then
        match ParseItems(v.rest[1..])
        case None => None
        case Some(t) => Some(Read([v.value] + t.value, t.rest))
      else None
  }

  function ParseField(s: string): (r: Option<Read<Field>>)
    ensures r.Some? ==> |r.value.rest| < |s|
    decreases |s|, 1
  {
    if s == "" || s[0] != '"' then None
    else match ReadText(s[1..])
      case None => None
      case Some(k) =>
        if k.rest == "" || k.rest[0] != ':' then None
        else match Parse(k.rest[1..])
          case None => None
          case Some(v) => Some(Read(Field(k.value, v.value), v.rest))
  }

  function ParseFields(s: string): (r: Option<Read<seq<Field>>>)
    ensures r.Some? ==> |r.value.rest| < |s|
    decreases |s|, 2
  {
    match ParseField(s)
    case None => None
    case Some(f) =>
      if f.rest == "" then None
      else if f.rest[0] == '}' then Some(Read([f.value], f.rest[1..]))
      else if f.rest[0] == ',' then
        match ParseFields(f.rest[1..])
        case None => None
        case Some(t) => Some(Read([f.value] + t.value, t.rest))
      else None
  }

  // ----- reading undoes printing: strings and numbers -----

  lemma HexRead(n: nat)
    requires n < 16
    ensures HexValue(HexDigit(n)) == Some(n)
  {}

  lemma CharRead(c: char, rest: string)
    ensures Escape(c) != "" && (Escape(c) + rest)[0] != '"'
    ensures ReadChar(Escape(c) + rest) == Some(Read(c, rest))
  {
    hide HexDigit, HexValue;
    var u := Escape(c);
    var s := u + rest;
    assert forall i :: 0 <= i < |u| ==> s[i] == u[i];
    assert s[|u|..] == rest;
    if |u| > 1 {
      assert s[1..][1..] == s[2..] && s[1..][0] == s[1];
      if |u| > 2 {
        HexRead(c as int / 16);
        HexRead(c as int % 16);
        assert s[1..][5..] == s[6..];
        assert s[1..][1] == s[2] && s[1..][2] == s[3] && s[1..][3] == s[4] && s[1..][4] == s[5];
      }
    }
  }

  lemma {:induction false} TextRead(t: string, rest: string)
    ensures ReadText(EscapeAll(t) + (['"'] + rest)) == Some(Read(t, rest))
  {
    hide Escape, ReadChar;
    var s := EscapeAll(t) + (['"'] + rest);
    if t == [] {
      assert s == ['"'] + rest && s[1..] == rest;
    } else {
      var r := EscapeAll(t[1..]) + (['"'] + rest);
      CharRead(t[0], r);
      TextRead(t[1..], rest);
      assert s == Escape(t[0]) + r;
      assert t == [t[0]] + t[1..];
    }
  }

  lemma QuoteRead(t: string, rest: string)
    ensures Quote(t) != ""
    ensures var s := Quote(t) + rest;
            s[0] == '"' && ReadText(s[1..]) == Some(Read(t, rest))
  {
    TextRead(t, rest);
    assert (Quote(t) + rest)[1..] == EscapeAll(t) + (['"'] + rest);
  }

  lemma {:induction false} DigitsRead(n: nat, rest: string)
    ensures ReadDigits(Decimal(n) + rest, 0) == ReadDigits(rest, n)
  {
    if n < 10 {
      assert (Decimal(n) + rest)[1..] == rest;
    } else {
      var r := [Digit(n % 10)] + rest;
      DigitsRead(n / 10, r);
      assert Decimal(n) + rest == Decimal(n / 10) + r;
      assert r[1..] == rest;
    }
  }

  lemma {:induction false} DecimalStart(n: nat)
    ensures Decimal(n) != "" && IsDigit(Decimal(n)[0])
    ensures Decimal(n)[0] == '0' <==> n == 0
  {
    if n >= 10 {
      DecimalStart(n / 10);
    }
  }

  /** What may follow a number. */
  predicate Ends(rest: string) { rest == "" || !IsDigit(rest[0]) }

  lemma NumberRead(k: Number, rest: string)
    requires Ends(rest)
    ensures ReadNumber(PrintInt(Whole(k)) + rest) == Some(Read(Node.Number(Canonical(k)), rest))
    ensures PrintInt(Whole(k)) != "" && (IsDigit(PrintInt(Whole(k))[0]) || PrintInt(Whole(k))[0] == '-')
  {
    hide Decimal;
    var i := Whole(k);
    var n: nat := if i < 0 then -i else i;
    DecimalStart(n);
    DigitsRead(n, rest);
    var s := Decimal(n) + rest;
    assert ReadDigits(s, 0) == ReadDigits(s[1..], s[0] as int - '0' as int);
    if i < 0 {
      assert (['-'] + Decimal(n) + rest)[1..] == s && s[1..] == (['-'] + Decimal(n) + rest)[2..];
    } else if i == 0 {
      DecimalZero();
      assert s[1..] == rest;
    }
  }

  lemma DecimalZero()
    ensures Decimal(0) == "0"
  {}

  // ----- reading undoes printing: trees -----

  lemma PrintStart(n: Node)
    ensures Print(n) != "" && Print(n)[0] != ']'
  {
    if n.Number? {
      NumberRead(n.number, "");
    }
  }

  lemma WordRead(word: string, n: Node, rest: string)
    requires word != ""
    ensures ReadWord(word + rest, word, n) == Some(Read(n, rest))
  {
    assert (word + rest)[..|word|] == word && (word + rest)[|word|..] == rest;
  }

  /** The reader recovers the tree, up to the tag of its numbers, from its text
      followed by anything that does not continue a number. */
  lemma {:induction false} ParsePrint(n: Node, rest: string)
    requires Ends(rest)
    ensures Parse(Print(n) + rest) == Some(Read(Erase(n), rest))
    decreases n, 1
  {
    hide ParseItems, ParseFields, ReadText, ReadNumber, ReadWord, PrintInt, Quote, PrintItems, PrintFields, EraseItems, EraseFields;
    match n {
      case Null =>
        WordRead("null", Null, rest);
      case Bool(b) =>
        WordRead(if b then "true" else "false", n, rest);
      case Number(k) =>
        NumberRead(k, rest);
      case String(t) =>
        QuoteRead(t, rest);
      case Array(items) =>
        ParsePrintArray(items, rest);
      case Object(fields) =>
        ParsePrintObject(fields, rest);
    }
  }

  lemma {:induction false} ParsePrintArray(items: seq<Node>, rest: string)
    ensures Parse(['['] + PrintItems(items) + [']'] + rest) == Some(Read(Array(EraseItems(items)), rest))
    decreases items, 1
  {
    hide ParseItems;
    var s := ['['] + PrintItems(items) + [']'] + rest;
    if items == [] {
      assert s[2..] == rest;
    } else {
      hide PrintItems, EraseItems;
      ParsePrintItems(items, rest);
      PrintItemsStart(items);
      assert s[1..] == PrintItems(items) + ([']'] + rest);
    }
  }

  lemma PrintItemsStart(items: seq<Node>)
    requires items != []
    ensures PrintItems(items) != "" && PrintItems(items)[0] != ']'
  {
    hide Print;
    PrintStart(items[0]);
  }

  lemma {:induction false} ParsePrintItems(items: seq<Node>, rest: string)
    requires items != []
    ensures ParseItems(PrintItems(items) + ([']'] + rest)) == Some(Read(EraseItems(items), rest))
    decreases items, 0
  {
    hide Parse, Print, Erase;
    if |items| == 1 {
      var tail := [']'] + rest;
      ParsePrint(items[0], tail);
      assert tail[1..] == rest;
      assert EraseItems(items) == [Erase(items[0])];
      assert PrintItems(items) + tail == Print(items[0]) + tail;
    } else {
      var more := PrintItems(items[1..]) + ([']'] + rest);
      var tail := [','] + more;
      ParsePrint(items[0], tail);
      ParsePrintItems(items[1..], rest);
      assert tail[1..] == more;
      assert PrintItems(items) + ([']'] + rest) == Print(items[0]) + tail;
    }
  }

  lemma {:induction false} ParsePrintObject(fields: seq<Field>, rest: string)
    ensures Parse(['{'] + PrintFields(fields) + ['}'] + rest) == Some(Read(Object(EraseFields(fields)), rest))
    decreases fields, 2
  {
    hide ParseFields;
    var s := ['{'] + PrintFields(fields) + ['}'] + rest;
    if fields == [] {
      assert s[2..] == rest;
    } else {
      assert PrintFields(fields)[0] == '"';
      hide PrintFields, EraseFields;
      ParsePrintFields(fields, rest);
      assert s[1..] == PrintFields(fields) + (['}'] + rest);
    }
  }

  lemma {:induction false} ParsePrintField(f: Field, rest: string)
    requires Ends(rest)
    ensures ParseField(PrintField(f) + rest) == Some(Read(Field(f.key, Erase(f.value)), rest))
    decreases f, 0
  {
    hide Parse, Print, Erase, Quote, ReadText;
    var tail := [':'] + (Print(f.value) + rest);
    QuoteRead(f.key, tail);
    ParsePrint(f.value, rest);
    assert tail[1..] == Print(f.value) + rest;
    assert PrintField(f) + rest == Quote(f.key) + tail;
  }

  lemma {:induction false} ParsePrintFields(fields: seq<Field>, rest: string)
    requires fields != []
    ensures ParseFields(PrintFields(fields) + (['}'] + rest)) == Some(Read(EraseFields(fields), rest))
    decreases fields, 1
  {
    hide ParseField, PrintField, Erase, ParseFields;
    if |fields| == 1 {
      LastFieldRead(fields[0], rest);
      assert EraseFields(fields) == [Field(fields[0].key, Erase(fields[0].value))];
      assert PrintFields(fields) == PrintField(fields[0]);
    } else {
      ParsePrintFields(fields[1..], rest);
      var more := PrintFields(fields[1..]) + (['}'] + rest);
      NextFieldRead(fields[0], more, EraseFields(fields[1..]), rest);
      assert PrintFields(fields) + (['}'] + rest) == PrintField(fields[0]) + ([','] + more);
    }
  }

  lemma {:induction false} LastFieldRead(f: Field, rest: string)
    ensures ParseFields(PrintField(f) + (['}'] + rest)) == Some(Read([Field(f.key, Erase(f.value))], rest))
    decreases f, 1
  {
    hide ParseField, PrintField, Erase;
    var tail := ['}'] + rest;
    ParsePrintField(f, tail);
    assert tail[1..] == rest;
  }

  lemma {:induction false} NextFieldRead(f: Field, more: string, fs: seq<Field>, rest: string)
    requires ParseFields(more) == Some(Read(fs, rest))
    ensures ParseFields(PrintField(f) + ([','] + more)) == Some(Read([Field(f.key, Erase(f.value))] + fs, rest))
    decreases f, 1
  {
    hide ParseField, PrintField, Erase;
    var tail := [','] + more;
    ParsePrintField(f, tail);
    assert tail[1..] == more;
  }

  // ----- and printing undoes reading: one spelling per tree -----

  lemma HexExact(c: char)
    requires HexValue(c).Some?
    ensures HexValue(c).value < 16 && HexDigit(HexValue(c).value) == c
  {}

  lemma CharExact(s: string)
    requires ReadChar(s).Some?
    ensures s == Escape(ReadChar(s).value.value) + ReadChar(s).value.rest
  {
    hide HexDigit, HexValue;
    var r := ReadChar(s).value;
    if s[0] == '\\' {
      var t := s[1..];
      assert s == ['\\', t[0]] + t[1..];
      if t[0] == 'u' {
        HexExact(t[3]);
        HexExact(t[4]);
        assert s == ['\\', 'u', '0', '0', t[3], t[4]] + t[5..];
      }
    } else {
      assert s == [s[0]] + s[1..];
    }
  }

  lemma {:induction false} TextExact(s: string)
    requires ReadText(s).Some?
    ensures s == EscapeAll(ReadText(s).value.value) + (['"'] + ReadText(s).value.rest)
    decreases |s|
  {
    hide Escape, ReadChar;
    if s[0] == '"' {
      assert s == ['"'] + s[1..];
    } else {
      CharExact(s);
      var c := ReadChar(s).value;
      TextExact(c.rest);
      var t := ReadText(c.rest).value;
      var all := [c.value] + t.value;
      assert all[0] == c.value && all[1..] == t.value;
    }
  }

  lemma {:induction false} DigitsExact(s: string, acc: nat)
    requires acc > 0
    ensures var r := ReadDigits(s, acc); r.value > 0 && Decimal(acc) + s == Decimal(r.value) + r.rest
    decreases |s|
  {
    if s != "" && IsDigit(s[0]) {
      var d := s[0] as int - '0' as int;
      DigitsExact(s[1..], 10 * acc + d);
      assert Decimal(10 * acc + d) == Decimal(acc) + [s[0]];
      assert s == [s[0]] + s[1..];
    }
  }

  lemma NumberExact(s: string)
    requires ReadNumber(s).Some?
    ensures var r := ReadNumber(s).value; r.value.Number? && s == PrintInt(Whole(r.value.number)) + r.rest
  {
    if s[0] == '0' {
      DecimalZero();
      assert s == "0" + s[1..];
    } else {
      var t := if s[0] == '-' then s[1..] else s;
      var d := t[0] as int - '0' as int;
      DigitsExact(t[1..], d);
      assert t == [t[0]] + t[1..] && Decimal(d) == [t[0]];
      if s[0] == '-' {
        assert s == ['-'] + t && s[2..] == t[1..];
      }
    }
  }

  lemma WordExact(s: string, word: string, n: Node)
    requires word != "" && ReadWord(s, word, n).Some?
    ensures s == word + ReadWord(s, word, n).value.rest && ReadWord(s, word, n).value.value == n
  {}

  /** Whatever the reader accepts is the text of what it reads. */
  lemma {:induction false} ParseExact(s: string)
    requires Parse(s).Some?
    ensures s == Print(Parse(s).value.value) + Parse(s).value.rest
    decreases |s|, 0
  {
    hide ParseItems, ParseFields, ReadText, ReadNumber, ReadWord, PrintInt, EscapeAll, PrintItems, PrintFields;
    var r := Parse(s).value;
    if s[0] == 'n' {
      WordExact(s, "null", Null);
    } else if s[0] == 't' {
      WordExact(s, "true", Bool(true));
    } else if s[0] == 'f' {
      WordExact(s, "false", Bool(false));
    } else if s[0] == '"' {
      TextExact(s[1..]);
      assert s == ['"'] + s[1..];
    } else if s[0] == '[' {
      if |s| > 1 && s[1] == ']' {
        EmptyPrints();
        assert s == ['['] + "" + [']'] + s[2..];
      } else {
        ItemsExact(s[1..]);
        assert s == ['['] + s[1..];
      }
    } else if s[0] == '{' {
      if |s| > 1 && s[1] == '}' {
        EmptyPrints();
        assert s == ['{'] + "" + ['}'] + s[2..];
      } else {
        FieldsExact(s[1..]);
        assert s == ['{'] + s[1..];
      }
    } else {
      NumberExact(s);
    }
  }

  lemma EmptyPrints()
    ensures PrintItems([]) == "" && PrintFields([]) == ""
  {}

  lemma {:induction false} ItemsExact(s: string)
    requires ParseItems(s).Some?
    ensures var r := ParseItems(s).value; r.value != [] && s == PrintItems(r.value) + ([']'] + r.rest)
    decreases |s|, 1
  {
    hide Parse, Print;
    ParseExact(s);
    var v := Parse(s).value;
    assert v.rest == [v.rest[0]] + v.rest[1..];
    if v.rest[0] == ',' {
      ItemsExact(v.rest[1..]);
      var t := ParseItems(v.rest[1..]).value;
      assert ([v.value] + t.value)[1..] == t.value;
    }
  }

  lemma {:induction false} FieldExact(s: string)
    requires ParseField(s).Some?
    ensures s == PrintField(ParseField(s).value.value) + ParseField(s).value.rest
    decreases |s|, 1
  {
    hide Parse, Print, ReadText, EscapeAll;
    TextExact(s[1..]);
    var k := ReadText(s[1..]).value;
    ParseExact(k.rest[1..]);
    var v := Parse(k.rest[1..]).value;
    assert s == ['"'] + s[1..] && k.rest == [':'] + k.rest[1..];
    assert s == Quote(k.value) + ([':'] + (Print(v.value) + v.rest));
  }

  lemma {:induction false} FieldsExact(s: string)
    requires ParseFields(s).Some?
    ensures var r := ParseFields(s).value; r.value != [] && s == PrintFields(r.value) + (['}'] + r.rest)
    decreases |s|, 2
  {
    hide ParseField, PrintField;
    FieldExact(s);
    var f := ParseField(s).value;
    assert f.rest == [f.rest[0]] + f.rest[1..];
    if f.rest[0] == ',' {
      FieldsExact(f.rest[1..]);
      var t := ParseFields(f.rest[1..]).value;
      assert ([f.value] + t.value)[1..] == t.value;
    }
  }

  // ----- exactly what the text determines -----

  lemma {:induction false} PrintErased(n: Node)
    ensures Print(Erase(n)) == Print(n)
    decreases n, 1
  {
    match n {
      case Array(items) => PrintItemsErased(items);
      case Object(fields) => PrintFieldsErased(fields);
      case _ =>
    }
  }

  lemma {:induction false} PrintItemsErased(items: seq<Node>)
    ensures PrintItems(EraseItems(items)) == PrintItems(items) && |EraseItems(items)| == |items|
    decreases items, 0
  {
    hide Print, Erase;
    if items != [] {
      PrintErased(items[0]);
      PrintItemsErased(items[1..]);
      assert EraseItems(items)[1..] == EraseItems(items[1..]);
    }
  }

  lemma {:induction false} PrintFieldsErased(fields: seq<Field>)
    ensures PrintFields(EraseFields(fields)) == PrintFields(fields) && |EraseFields(fields)| == |fields|
    decreases fields, 0
  {
    hide Print, Erase, Quote;
    if fields != [] {
      PrintErased(fields[0].value);
      PrintFieldsErased(fields[1..]);
      assert EraseFields(fields)[1..] == EraseFields(fields[1..]);
    }
  }

  /** Two trees have the same text exactly if they differ in number tags only. */
  lemma PrintInjective(a: Node, b: Node)
    ensures Print(a) == Print(b) <==> Erase(a) == Erase(b)
  {
    hide Print, Parse, Erase;
    ParsePrint(a, "");
    ParsePrint(b, "");
    PrintErased(a);
    PrintErased(b);
    assert Print(a) + "" == Print(a) && Print(b) + "" == Print(b);
  }

  /** So the printer is not injective on raw trees. */
  lemma SameDigits(n: nat)
    requires n < 0x8000_0000_0000_0000
    ensures Node.Number(PosInt(n)) != Node.Number(NegInt(n))
    ensures Print(Node.Number(PosInt(n))) == Print(Node.Number(NegInt(n)))
  {}

  // ----- no control characters -----

  predicate Printable(s: string) {
    forall c :: c in s ==> c >= ' '
  }

  lemma PrintableConcat(s: string, t: string)
    ensures Printable(s + t) <==> Printable(s) && Printable(t)
  {
    assert forall c :: c in s + t <==> c in s || c in t;
  }

  lemma {:induction false} DecimalPrintable(n: nat)
    ensures Printable(Decimal(n))
  {
    if n >= 10 {
      DecimalPrintable(n / 10);
      assert forall c :: c in Decimal(n) <==> c in Decimal(n / 10) || c == Digit(n % 10);
    }
  }

  lemma {:induction false} EscapeAllPrintable(s: string)
    ensures Printable(EscapeAll(s))
  {
    if s != [] {
      EscapeAllPrintable(s[1..]);
      assert Printable(Escape(s[0]));
      PrintableConcat(Escape(s[0]), EscapeAll(s[1..]));
    }
  }

  lemma QuotePrintable(s: string)
    ensures Printable(Quote(s))
  {
    EscapeAllPrintable(s);
    PrintableConcat(['"'] + EscapeAll(s), ['"']);
    PrintableConcat(['"'], EscapeAll(s));
  }

  lemma {:induction false} PrintPrintable(n: Node)
    ensures Printable(Print(n))
    decreases n, 1
  {
    hide Quote, Decimal, PrintItems, PrintFields;
    match n {
      case Number(k) =>
        DecimalPrintable(if Whole(k) < 0 then -Whole(k) else Whole(k));
      case String(t) =>
        QuotePrintable(t);
      case Array(items) =>
        PrintItemsPrintable(items);
      case Object(fields) =>
        PrintFieldsPrintable(fields);
      case _ =>
    }
  }

  lemma {:induction false} PrintItemsPrintable(items: seq<Node>)
    ensures Printable(PrintItems(items))
    decreases items, 0
  {
    hide Print;
    if items != [] {
      PrintPrintable(items[0]);
      PrintItemsPrintable(items[1..]);
      PrintableConcat(Print(items[0]) + [','], PrintItems(items[1..]));
    }
  }

  lemma {:induction false} PrintFieldsPrintable(fields: seq<Field>)
    ensures Printable(PrintFields(fields))
    decreases fields, 0
  {
    hide Print, Quote;
    if fields != [] {
      QuotePrintable(fields[0].key);
      PrintPrintable(fields[0].value);
      PrintableConcat(Quote(fields[0].key) + [':'], Print(fields[0].value));
      PrintFieldsPrintable(fields[1..]);
      PrintableConcat(PrintField(fields[0]) + [','], PrintFields(fields[1..]));
    }
  }
}
