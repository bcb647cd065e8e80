// JSON trees and the text packages/cJSON-v1.0.2/cJSON.c prints for them.
module JsonPrint {
  import opened Bytes

  // A tree of cJSON items.  Children form a chain, as their next pointers do.
  // A number is mantissa * 10^exponent, with the double's rounding left out.
  datatype Json =
    | Null
    | False
    | True
    | Number(mantissa: int, exponent: int)
    | String(text: seq<byte>)
    | Array(items: Items)
    | Object(members: Members)

  datatype Items = NoItems | Item(head: Json, tail: Items)

  datatype Members = NoMembers | Member(key: seq<byte>, value: Json, rest: Members)

  const INT_MAX := 0x7FFF_FFFF
  const INT_MIN := -0x8000_0000

  // A C string: no zero byte inside.
  predicate CString(s: seq<byte>) {
    forall i :: 0 <= i < |s| ==> s[i] != 0
  }

  // Trees whose numbers print through the "%d" branches and whose strings are C strings.
  predicate Printable(v: Json) {
    match v
    case Number(m, e) => e == 0 && INT_MIN <= m <= INT_MAX
    case String(s) => CString(s)
    case Array(items) => PrintableItems(items)
    case Object(members) => PrintableMembers(members)
    case _ => true
  }

  predicate PrintableItems(items: Items) {
    items.Item? ==> Printable(items.head) && PrintableItems(items.tail)
  }

  predicate PrintableMembers(members: Members) {
    members.Member? ==> CString(members.key) && Printable(members.value) && PrintableMembers(members.rest)
  }

  // ------------------------------------------------------------ characters

  const QUOTE: byte := 0x22
  const BACKSLASH: byte := 0x5C
  const SLASH: byte := 0x2F
  const STAR: byte := 0x2A
  const COMMA: byte := 0x2C
  const COLON: byte := 0x3A
  const MINUS: byte := 0x2D
  const PLUS: byte := 0x2B
  const DOT: byte := 0x2E
  const LBRACKET: byte := 0x5B
  const RBRACKET: byte := 0x5D
  const LBRACE: byte := 0x7B
  const RBRACE: byte := 0x7D
  const SPACE: byte := 0x20
  const TAB: byte := 0x09
  const NEWLINE: byte := 0x0A
  const RETURN: byte := 0x0D
  const LOWER_B: byte := 0x62
  const LOWER_E: byte := 0x65
  const LOWER_F: byte := 0x66
  const LOWER_N: byte := 0x6E
  const LOWER_R: byte := 0x72
  const LOWER_T: byte := 0x74
  const LOWER_U: byte := 0x75
  const UPPER_E: byte := 0x45

  const TEXT_NULL: seq<byte> := [0x6E, 0x75, 0x6C, 0x6C]
  const TEXT_FALSE: seq<byte> := [0x66, 0x61, 0x6C, 0x73, 0x65]
  const TEXT_TRUE: seq<byte> := [0x74, 0x72, 0x75, 0x65]

  // --------------------------------------------------------------- numbers

  // print_number, its first two branches
  function NumberText(n: int): (s: seq<byte>)
    ensures |s| > 0
  {
    if n < 0 then [MINUS] + Digits(-n) else Digits(n)
  }

  // --------------------------------------------------------------- strings

  function HexDigit(n: nat): byte
    requires n < 16
  {
    if n < 10 then DIGIT_0 + n else 0x61 + (n - 10)
  }

  // The escaped form of one character of a string.
  function EscapeChar(c: byte): (s: seq<byte>)
    ensures 1 <= |s| <= 6
  {
    if c == BACKSLASH || c == QUOTE then [BACKSLASH, c]
    else if c > 31 then [c]
    else if c == 0x08 then [BACKSLASH, LOWER_B]
    else if c == 0x0C then [BACKSLASH, LOWER_F]
    else if c == NEWLINE then [BACKSLASH, LOWER_N]
    else if c == RETURN then [BACKSLASH, LOWER_R]
    else if c == TAB then [BACKSLASH, LOWER_T]
    else [BACKSLASH, LOWER_U, DIGIT_0, DIGIT_0, HexDigit(c / 16), HexDigit(c % 16)]
  }

  function Escape(s: seq<byte>): seq<byte> {
    if s == [] then [] else EscapeChar(s[0]) + Escape(s[1..])
  }

  function StringText(s: seq<byte>): seq<byte> {
    [QUOTE] + Escape(s) + [QUOTE]
  }

  // ----------------------------------------------------------------- trees

  function Tabs(n: int): (s: seq<byte>)
    ensures |s| == if n < 0 then 0 else n
    ensures forall i :: 0 <= i < |s| ==> s[i] == TAB
  {
    seq(if n < 0 then 0 else n, _ => TAB)
  }

  // print_value; fmt selects the formatted layout.
  function Text(v: Json, depth: nat, fmt: bool): (s: seq<byte>)
    requires Printable(v)
    decreases v, 0
  {
    match v
    case Null => TEXT_NULL
    case False => TEXT_FALSE
    case True => TEXT_TRUE
    case Number(m, _) => NumberText(m)
    case String(s) => StringText(s)
    case Array(items) => [LBRACKET] + ItemsText(items, depth, fmt) + [RBRACKET]
    case Object(members) =>
      if members.NoMembers? then [LBRACE] + (if fmt then [NEWLINE] + Tabs(depth - 1) else []) + [RBRACE]
      else
        [LBRACE] + (if fmt then [NEWLINE] else []) + MembersText(members, depth + 1, fmt)
        + (if fmt then Tabs(depth) else []) + [RBRACE]
  }

  // The items of an array printed at this depth.
  function ItemsText(items: Items, depth: nat, fmt: bool): (s: seq<byte>)
    requires PrintableItems(items)
    decreases items, 1
  {
    if items.NoItems? then []
    else
      Text(items.head, depth + 1, fmt)
      + (if items.tail.NoItems? then []
         else (if fmt then [COMMA, SPACE] else [COMMA]) + ItemsText(items.tail, depth, fmt))
  }

  // The members of an object, their values at this depth.
  function MembersText(members: Members, depth: nat, fmt: bool): (s: seq<byte>)
    requires PrintableMembers(members)
    decreases members, 1
  {
    if members.NoMembers? then []
    else
      MemberHead(members.key, depth, fmt) + Text(members.value, depth, fmt)
      + MemberEnd(members, fmt) + MembersText(members.rest, depth, fmt)
  }

  function MemberHead(key: seq<byte>, depth: nat, fmt: bool): seq<byte> {
    (if fmt then Tabs(depth) else []) + StringText(key) + (if fmt then [COLON, TAB] else [COLON])
  }

  function MemberEnd(members: Members, fmt: bool): seq<byte>
    requires members.Member?
  {
    (if members.rest.NoMembers? then [] else [COMMA]) + (if fmt then [NEWLINE] else [])
  }

  // cJSON_Print and cJSON_PrintUnformatted
  function Print(v: Json, fmt: bool): seq<byte>
    requires Printable(v)
  {
    Text(v, 0, fmt)
  }

  // ------------------------------------------------------------- measures

  function Size(v: Json): nat
    decreases v, 0
  {
    match v
    case Array(items) => 1 + ItemsSize(items)
    case Object(members) => 1 + MembersSize(members)
    case _ => 1
  }

  function ItemsSize(items: Items): nat
    decreases items, 1
  {
    if items.NoItems? then 0 else 1 + Size(items.head) + ItemsSize(items.tail)
  }

  function MembersSize(members: Members): nat
    decreases members, 1
  {
    if members.NoMembers? then 0 else 1 + Size(members.value) + MembersSize(members.rest)
  }

  // ------------------------------------------------- what a text consists of

  predicate Special(c: byte) {
    c < 32 || c == QUOTE || c == BACKSLASH
  }

  lemma {:induction false} EscapeNothing(s: seq<byte>)
    requires forall i :: 0 <= i < |s| ==> !Special(s[i])
    ensures Escape(s) == s
    decreases |s|
  {
    if s != [] {
      EscapeNothing(s[1..]);
      assert s == [s[0]] + s[1..];
    }
  }

  lemma {:induction false} EscapeAppend(s: seq<byte>, c: byte)
    ensures Escape(s + [c]) == Escape(s) + EscapeChar(c)
    decreases |s|
  {
    hide EscapeChar;
    if s == [] {
      assert s + [c] == [c];
      assert Escape([c][1..]) == [];
    } else {
      EscapeAppend(s[1..], c);
      assert (s + [c])[1..] == s[1..] + [c];
    }
  }

  lemma {:induction false} EscapeCString(s: seq<byte>)
    requires CString(s)
    ensures CString(Escape(s))
    decreases |s|
  {
    if s != [] {
      EscapeCString(s[1..]);
    }
  }

  lemma {:induction false} DigitsCString(n: nat)
    ensures CString(Digits(n))
  {
    if n >= 10 {
      DigitsCString(n / 10);
    }
  }

  // "%d" of an int fits the 21 bytes print_number allows for it.
  lemma {:induction false} DigitsLength(n: nat, k: nat, bound: nat)
    requires n < bound && 0 < k && bound <= Ten(k)
    ensures |Digits(n)| <= k
    decreases k
  {
    if n >= 10 {
      DigitsLength(n / 10, k - 1, Ten(k - 1));
    }
  }

  function Ten(k: nat): nat {
    if k == 0 then 1 else 10 * Ten(k - 1)
  }

  lemma NumberFits(n: int)
    requires INT_MIN <= n <= INT_MAX
    ensures |NumberText(n)| <= 11 && CString(NumberText(n))
  {
    var m := if n < 0 then -n else n;
    assert Ten(5) == 10_0000;
    assert Ten(10) == 100_0000_0000;
    DigitsLength(m, 10, Ten(10));
    DigitsCString(m);
  }
}
