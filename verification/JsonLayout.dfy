// The layout of printed JSON with every character spelled out: what the text of
// packages/cJSON-v1.0.2/cJSON.c is made of, formatted and not.
module JsonLayout {
  import opened Bytes
  import opened JsonPrint
  import opened JsonRoundTrip
  import JsonNumbers

  function Between(parts: seq<seq<byte>>, separator: seq<byte>): seq<byte> {
    if parts == [] then [] else if |parts| == 1 then parts[0] else parts[0] + separator + Between(parts[1..], separator)
  }

  // ------------------------------------------------------------- leaves

  lemma LeafLayout(depth: nat, fmt: bool)
    ensures Text(Null, depth, fmt) == Ascii("null")
    ensures Text(False, depth, fmt) == Ascii("false") && Text(True, depth, fmt) == Ascii("true")
  {}

  // The shortest decimal numeral
  lemma {:induction false} DigitsLayout(n: nat)
    ensures JsonNumbers.AllDigits(Digits(n)) && JsonNumbers.Decimal(Digits(n)) == n
    ensures n > 0 ==> Digits(n)[0] != '0' as int
    ensures n == 0 ==> Digits(n) == Ascii("0")
  {
    if n >= 10 {
      DigitsLayout(n / 10);
      JsonNumbers.DecimalMore(Digits(n / 10), '0' as int + n % 10);
    } else {
      JsonNumbers.NoDigits();
      JsonNumbers.DecimalMore([], '0' as int + n);
      assert [] + ['0' as int + n] == Digits(n);
    }
  }

  lemma NumberLayout(n: int, depth: nat, fmt: bool)
    ensures Printable(Number(n, 0)) <==> -0x8000_0000 <= n <= 0x7FFF_FFFF
    ensures Printable(Number(n, 0)) ==>
              Text(Number(n, 0), depth, fmt) == if n < 0 then Ascii("-") + Digits(0 - n) else Digits(n)
  {}

  // The escapes
  lemma EscapeLayout(c: byte)
    ensures EscapeChar(c) ==
            if c == '"' as int then Ascii("\\\"")
            else if c == '\\' as int then Ascii("\\\\")
            else if c == 8 then Ascii("\\b")
            else if c == 9 then Ascii("\\t")
            else if c == 10 then Ascii("\\n")
            else if c == 12 then Ascii("\\f")
            else if c == 13 then Ascii("\\r")
            else if c < 32 then Ascii("\\u00") + [LowerHex(c / 16), LowerHex(c % 16)]
            else [c]
  {}

  function LowerHex(d: nat): byte
    requires d < 16
  {
    if d < 10 then '0' as int + d else 'a' as int + (d - 10)
  }

  function Quoted(s: seq<byte>): seq<byte> {
    Ascii("\"") + Escape(s) + Ascii("\"")
  }

  lemma StringLayout(s: seq<byte>, depth: nat, fmt: bool)
    requires CString(s)
    ensures Text(String(s), depth, fmt) == Quoted(s) == StringText(s)
  {
    hide Escape;
    assert Ascii("\"") == [QUOTE];
  }

  // ------------------------------------------------------------- arrays

  function ItemTexts(items: Items, depth: nat, fmt: bool): seq<seq<byte>>
    requires PrintableItems(items)
  {
    if items.NoItems? then [] else [Text(items.head, depth, fmt)] + ItemTexts(items.tail, depth, fmt)
  }

  lemma {:induction false} ItemsLayout(items: Items, depth: nat, fmt: bool)
    requires PrintableItems(items)
    ensures ItemsText(items, depth, fmt) == Between(ItemTexts(items, depth + 1, fmt), CommaText(fmt))
    decreases items
  {
    hide Text, ItemsText, CommaText;
    if items.NoItems? {
      NoItemsText(depth, fmt);
    } else {
      ItemsUnfold(items, depth, fmt);
      ItemsLayout(items.tail, depth, fmt);
      var head, rest := Text(items.head, depth + 1, fmt), ItemTexts(items.tail, depth + 1, fmt);
      assert ([head] + rest)[1..] == rest;
      assert head + [] == head;
      var comma, more := CommaText(fmt), Between(rest, CommaText(fmt));
      assert head + (comma + more) == head + comma + more;
    }
  }

  // The items one level deeper, on one line
  lemma ArrayLayout(items: Items, depth: nat, fmt: bool)
    requires PrintableItems(items)
    ensures Text(Array(items), depth, fmt) ==
            Ascii("[") + Between(ItemTexts(items, depth + 1, fmt), if fmt then Ascii(", ") else Ascii(",")) + Ascii("]")
  {
    hide ItemsText, ItemTexts;
    ItemsLayout(items, depth, fmt);
    assert CommaText(fmt) == if fmt then Ascii(", ") else Ascii(",");
    assert Ascii("[") == [LBRACKET] && Ascii("]") == [RBRACKET];
  }

  // ------------------------------------------------------------ objects

  function TabText(n: nat): (s: seq<byte>)
    ensures |s| == n
  {
    seq(n, _ => '\t' as int)
  }

  // One member: on a line of its own when formatted
  function MemberText(members: Members, depth: nat, fmt: bool): seq<byte>
    requires PrintableMembers(members) && members.Member?
  {
    if fmt then TabText(depth) + Quoted(members.key) + Ascii(":\t") + Text(members.value, depth, fmt)
    else Quoted(members.key) + Ascii(":") + Text(members.value, depth, fmt)
  }

  function MemberTexts(members: Members, depth: nat, fmt: bool): seq<seq<byte>>
    requires PrintableMembers(members)
  {
    if members.NoMembers? then [] else [MemberText(members, depth, fmt)] + MemberTexts(members.rest, depth, fmt)
  }

  lemma HeadLayout(members: Members, depth: nat, fmt: bool)
    requires PrintableMembers(members) && members.Member?
    ensures MemberHead(members.key, depth, fmt) + Text(members.value, depth, fmt) == MemberText(members, depth, fmt)
  {
    hide Text, Escape;
    StringLayout(members.key, depth, fmt);
    assert TabText(depth) == Tabs(depth);
    assert Ascii(":\t") == [COLON, TAB] && Ascii(":") == [COLON];
    assert [] + StringText(members.key) == StringText(members.key);
  }

  // The members, a comma and perhaps a line end between them
  lemma {:induction false} MembersLayout(members: Members, depth: nat, fmt: bool)
    requires PrintableMembers(members) && members.Member?
    ensures MembersText(members, depth, fmt) ==
            Between(MemberTexts(members, depth, fmt), [COMMA] + Break(fmt)) + Break(fmt)
    decreases members
  {
    hide Text, MembersText, MemberHead, MemberEnd, MemberText, Break;
    MembersUnfold(members, depth, fmt);
    HeadLayout(members, depth, fmt);
    var head, separator := MemberText(members, depth, fmt), [COMMA] + Break(fmt);
    if members.rest.NoMembers? {
      assert MemberTexts(members, depth, fmt) == [head];
      LastMember(head, Break(fmt));
    } else {
      MembersLayout(members.rest, depth, fmt);
      var rest := MemberTexts(members.rest, depth, fmt);
      assert ([head] + rest)[1..] == rest;
      MoreMembers(head, separator, Between(rest, separator), Break(fmt));
    }
  }

  lemma LastMember(head: seq<byte>, end: seq<byte>)
    ensures head + ([] + end) + [] == head + end && Between([head], []) == head
  {}

  lemma MoreMembers(a: seq<byte>, b: seq<byte>, c: seq<byte>, d: seq<byte>)
    ensures a + b + (c + d) == a + b + c + d
  {}

  // Nothing between the braces but, when formatted, a line end and one tab less
  lemma EmptyObjectLayout(depth: nat, fmt: bool)
    ensures Text(Object(NoMembers), depth, fmt) ==
            if fmt then Ascii("{\n") + TabText(if depth == 0 then 0 else depth - 1) + Ascii("}") else Ascii("{}")
  {
    hide Text;
    ObjectUnfold(NoMembers, depth, fmt);
    Marks();
    var tabs := TabText(if depth == 0 then 0 else depth - 1);
    assert Tabs(depth - 1) == tabs;
    assert [LBRACE] + ([NEWLINE] + tabs) + [RBRACE] == [LBRACE, NEWLINE] + tabs + [RBRACE];
    assert [LBRACE] + ([] + []) + [RBRACE] == [LBRACE, RBRACE];
  }

  // The members one level deeper, each on a line of its own when formatted
  lemma ObjectLayout(members: Members, depth: nat, fmt: bool)
    requires PrintableMembers(members) && members.Member?
    ensures Text(Object(members), depth, fmt) ==
            var parts := MemberTexts(members, depth + 1, fmt);
            if fmt then Ascii("{\n") + Between(parts, Ascii(",\n")) + Ascii("\n") + TabText(depth) + Ascii("}")
            else Ascii("{") + Between(parts, Ascii(",")) + Ascii("}")
  {
    hide MembersText, MemberTexts, Text, Between, Tabs, Ascii, TabText;
    ObjectUnfold(members, depth, fmt);
    MembersLayout(members, depth + 1, fmt);
    Marks();
    var body := Between(MemberTexts(members, depth + 1, fmt), [COMMA] + Break(fmt));
    SameTabs(depth);
    Braces(body, TabText(depth));
    assert [COMMA] + [] == [COMMA] && [COMMA] + [NEWLINE] == [COMMA, NEWLINE];
  }

  lemma SameTabs(depth: nat)
    ensures Tabs(depth) == TabText(depth)
  {}

  lemma Braces(body: seq<byte>, tabs: seq<byte>)
    ensures [LBRACE] + [NEWLINE] + (body + [NEWLINE]) + tabs + [RBRACE]
            == [LBRACE, NEWLINE] + body + [NEWLINE] + tabs + [RBRACE]
    ensures [LBRACE] + [] + (body + []) + [] + [RBRACE] == [LBRACE] + body + [RBRACE]
  {}

  lemma Marks()
    ensures Ascii("{") == [LBRACE] && Ascii("}") == [RBRACE] && Ascii("{\n") == [LBRACE, NEWLINE]
    ensures Ascii(",\n") == [COMMA, NEWLINE] && Ascii(",") == [COMMA] && Ascii("\n") == [NEWLINE]
    ensures Ascii("{}") == [LBRACE, RBRACE]
  {}
}
