// Printing a tree, formatted or not, and parsing the text gives the tree back
// and consumes exactly the text.
module JsonRoundTrip {
  import opened Bytes
  import opened JsonPrint
  import opened JsonParse

  lemma Splits(t: seq<byte>, i: nat, a: seq<byte>, b: seq<byte>)
    requires StartsWith(t, i, a + b)
    ensures StartsWith(t, i, a) && StartsWith(t, i + |a|, b)
  {
    forall k | i <= k < i + |a| ensures t[k] == a[k - i] {
      assert t[k] == (a + b)[k - i];
    }
    forall k | i + |a| <= k < i + |a| + |b| ensures t[k] == b[k - (i + |a|)] {
      assert t[k] == (a + b)[k - i];
    }
  }

  lemma FirstChar(t: seq<byte>, i: nat, s: seq<byte>)
    requires StartsWith(t, i, s) && |s| > 0
    ensures At(t, i) == s[0]
  {}

  predicate White(c: byte) { c != 0 && c <= SPACE }

  lemma {:induction false} SkipsWhite(t: seq<byte>, i: nat, ws: seq<byte>)
    requires StartsWith(t, i, ws) && forall k :: 0 <= k < |ws| ==> White(ws[k])
    ensures Skip(t, i) == Skip(t, i + |ws|)
    decreases |ws|
  {
    if |ws| > 0 {
      assert t[i] == ws[0];
      assert forall k :: i + 1 <= k < i + |ws| ==> t[k] == ws[k - i];
      SkipsWhite(t, i + 1, ws[1..]);
    }
  }

  // --------------------------------------------------------------- numbers

  // What may follow a number without becoming part of it.
  predicate EndsNumber(c: byte) {
    !IsDigit(c) && c != DOT && c != LOWER_E && c != UPPER_E
  }

  lemma {:induction false} ReadsDigits(t: seq<byte>, i: nat, n: nat)
    requires StartsWith(t, i, Digits(n))
    ensures ReadDigits(t, i, 0) == ReadDigits(t, i + |Digits(n)|, n)
  {
    if n >= 10 {
      Splits(t, i, Digits(n / 10), [DIGIT_0 + n % 10]);
      ReadsDigits(t, i, n / 10);
      FirstChar(t, i + |Digits(n / 10)|, [DIGIT_0 + n % 10]);
    } else {
      FirstChar(t, i, Digits(n));
    }
  }

  lemma {:induction false} LeadingDigit(n: nat)
    ensures IsDigit(Digits(n)[0]) && (n > 0 ==> Digits(n)[0] != DIGIT_0)
  {
    if n >= 10 {
      LeadingDigit(n / 10);
    }
  }

  lemma NumberParses(t: seq<byte>, i: nat, n: int)
    requires StartsWith(t, i, NumberText(n)) && EndsNumber(At(t, i + |NumberText(n)|))
    ensures (At(t, i) == MINUS || IsDigit(At(t, i))) && ParseNumber(t, i) == Parsed(Number(n, 0), i + |NumberText(n)|)
  {
    var m := if n < 0 then -n else n;
    var start := if n < 0 then i + 1 else i;
    if n < 0 {
      Splits(t, i, [MINUS], Digits(m));
      FirstChar(t, i, [MINUS]);
    }
    ReadsDigits(t, start, m);
    LeadingDigit(m);
    FirstChar(t, start, Digits(m));
  }

  // --------------------------------------------------------------- strings

  lemma HexPair(c: byte)
    requires c < 32
    ensures HexValue(HexDigit(c / 16)) == Some(c / 16) && HexValue(HexDigit(c % 16)) == Some(c % 16)
  {}

  lemma CharParses(t: seq<byte>, i: nat, c: byte)
    requires c != 0 && StartsWith(t, i, EscapeChar(c))
    ensures At(t, i) != QUOTE && At(t, i) != 0
    ensures ParseChar(t, i) == Parsed([c], i + |EscapeChar(c)|)
  {
    var e := EscapeChar(c);
    FirstChar(t, i, e);
    if |e| >= 2 {
      assert t[i + 1] == e[1];
    }
    if |e| == 6 {
      assert t[i + 2] == e[2] && t[i + 3] == e[3] && t[i + 4] == e[4] && t[i + 5] == e[5];
      HexPair(c);
      assert ParseHex4(t, i + 2) == c;
    }
  }

  lemma {:induction false} CharsParse(t: seq<byte>, i: nat, s: seq<byte>)
    requires CString(s) && StartsWith(t, i, Escape(s)) && At(t, i + |Escape(s)|) == QUOTE
    ensures ParseChars(t, i) == Parsed(s, i + |Escape(s)|)
    decreases |s|
  {
    hide EscapeChar, ParseChar;
    if s != [] {
      Splits(t, i, EscapeChar(s[0]), Escape(s[1..]));
      CharParses(t, i, s[0]);
      CharsParse(t, i + |EscapeChar(s[0])|, s[1..]);
      assert [s[0]] + s[1..] == s;
    }
  }

  lemma StringParses(t: seq<byte>, i: nat, s: seq<byte>)
    requires CString(s) && StartsWith(t, i, StringText(s))
    ensures ParseString(t, i) == Some(Parsed(s, i + |StringText(s)|)) && At(t, i) == QUOTE
  {
    hide Escape, ParseChars;
    Splits(t, i, [QUOTE] + Escape(s), [QUOTE]);
    Splits(t, i, [QUOTE], Escape(s));
    FirstChar(t, i, [QUOTE]);
    FirstChar(t, i + 1 + |Escape(s)|, [QUOTE]);
    CharsParse(t, i + 1, s);
  }

  // ----------------------------------------------------------------- trees

  // No value starts with white space, and none with the others' first characters.
  lemma TextStart(v: Json, depth: nat, fmt: bool)
    requires Printable(v)
    ensures var s := Text(v, depth, fmt);
            |s| > 0 && s[0] > SPACE && s[0] != RBRACKET && s[0] != RBRACE
  {
    if v.Number? {
      LeadingDigit(if v.mantissa < 0 then -v.mantissa else v.mantissa);
    }
  }

  lemma WordParses(t: seq<byte>, i: nat)
    ensures StartsWith(t, i, TEXT_NULL) ==> ParseValue(t, i) == Some(Parsed(Null, i + 4))
    ensures StartsWith(t, i, TEXT_FALSE) ==> ParseValue(t, i) == Some(Parsed(False, i + 5))
    ensures StartsWith(t, i, TEXT_TRUE) ==> ParseValue(t, i) == Some(Parsed(True, i + 4))
  {
    if StartsWith(t, i, TEXT_FALSE) || StartsWith(t, i, TEXT_TRUE) {
      assert t[i] != TEXT_NULL[0];
    }
    if StartsWith(t, i, TEXT_TRUE) {
      assert t[i] != TEXT_FALSE[0];
    }
  }

  // Any other first character decides alone.
  lemma NoWord(t: seq<byte>, i: nat)
    requires At(t, i) == QUOTE || At(t, i) == MINUS || IsDigit(At(t, i)) || At(t, i) == LBRACKET || At(t, i) == LBRACE
    ensures !StartsWith(t, i, TEXT_NULL) && !StartsWith(t, i, TEXT_FALSE) && !StartsWith(t, i, TEXT_TRUE)
  {
    assert TEXT_NULL[0] == 0x6E && TEXT_FALSE[0] == 0x66 && TEXT_TRUE[0] == 0x74;
  }

  // v's text stands at i, something that cannot prolong a number stands behind it.
  ghost predicate Stands(t: seq<byte>, i: nat, v: Json, depth: nat, fmt: bool)
    requires Printable(v)
  {
    StartsWith(t, i, Text(v, depth, fmt)) && EndsNumber(At(t, i + |Text(v, depth, fmt)|))
  }

  lemma {:induction false} ValueParses(t: seq<byte>, i: nat, v: Json, depth: nat, fmt: bool)
    requires Printable(v) && Stands(t, i, v, depth, fmt)
    ensures ParseValue(t, i) == Some(Parsed(v, i + |Text(v, depth, fmt)|))
    decreases v, 1
  {
    hide ParseNumber, ParseString, ParseArray, ParseObject, ItemsText, MembersText, NumberText, StringText, Tabs;
    match v
    case Null => WordParses(t, i);
    case False => WordParses(t, i);
    case True => WordParses(t, i);
    case Number(n, _) =>
      NumberParses(t, i, n);
      NoWord(t, i);
    case String(s) =>
      StringParses(t, i, s);
      NoWord(t, i);
    case Array(_) =>
      ArrayParses(t, i, v, depth, fmt);
      NoWord(t, i);
    case Object(_) =>
      ObjectParses(t, i, v, depth, fmt);
      NoWord(t, i);
  }

  lemma Blackens(t: seq<byte>, i: nat)
    requires At(t, i) > SPACE
    ensures Skip(t, i) == i
  {}

  lemma {:induction false} ArrayParses(t: seq<byte>, i: nat, v: Json, depth: nat, fmt: bool)
    requires Printable(v) && v.Array? && StartsWith(t, i, Text(v, depth, fmt))
    ensures At(t, i) == LBRACKET && ParseArray(t, i) == Some(Parsed(v, i + |Text(v, depth, fmt)|))
    decreases v, 0
  {
    hide ParseItems, ItemsText, StartsWith, Skip, At;
    var items := v.items;
    var body := ItemsText(items, depth, fmt);
    assert Text(v, depth, fmt) == [LBRACKET] + body + [RBRACKET];
    hide Text;
    Splits(t, i, [LBRACKET] + body, [RBRACKET]);
    Splits(t, i, [LBRACKET], body);
    FirstChar(t, i, [LBRACKET]);
    FirstChar(t, i + 1 + |body|, [RBRACKET]);
    if items.Item? {
      ItemsStart(t, i + 1, items, depth, fmt);
      ItemsParse(t, i + 1, i + 1, items, depth, fmt);
    } else {
      assert body == [] by { NoItemsText(depth, fmt); }
      Blackens(t, i + 1);
    }
  }

  lemma NoItemsText(depth: nat, fmt: bool)
    ensures ItemsText(NoItems, depth, fmt) == []
  {}

  function CommaText(fmt: bool): (s: seq<byte>)
    ensures |s| > 0
  {
    if fmt then [COMMA, SPACE] else [COMMA]
  }

  lemma ItemsUnfold(items: Items, depth: nat, fmt: bool)
    requires PrintableItems(items) && items.Item?
    ensures ItemsText(items, depth, fmt) ==
            Text(items.head, depth + 1, fmt) +
            if items.tail.NoItems? then [] else CommaText(fmt) + ItemsText(items.tail, depth, fmt)
  {
    hide Text;
  }

  // An array's text starts as its first value does.
  lemma ItemsStart(t: seq<byte>, i: nat, items: Items, depth: nat, fmt: bool)
    requires PrintableItems(items) && items.Item? && StartsWith(t, i, ItemsText(items, depth, fmt))
    ensures StartsWith(t, i, Text(items.head, depth + 1, fmt)) && Skip(t, i) == i
    ensures At(t, i) != RBRACKET && At(t, i) > SPACE
  {
    hide Text, ItemsText, StartsWith, Skip, At;
    ItemsUnfold(items, depth, fmt);
    var head := Text(items.head, depth + 1, fmt);
    Splits(t, i, head, if items.tail.NoItems? then [] else CommaText(fmt) + ItemsText(items.tail, depth, fmt));
    TextStart(items.head, depth + 1, fmt);
    FirstChar(t, i, head);
    Blackens(t, i);
  }

  lemma {:induction false} ItemsParse(t: seq<byte>, from: nat, i: nat, items: Items, depth: nat, fmt: bool)
    requires PrintableItems(items) && items.Item? && StartsWith(t, i, ItemsText(items, depth, fmt))
    requires Skip(t, from) == i && At(t, i + |ItemsText(items, depth, fmt)|) == RBRACKET
    ensures ParseItems(t, from) == Some(Parsed(items, i + |ItemsText(items, depth, fmt)|))
    decreases items, 1
  {
    hide Text, ItemsText, ParseValue, StartsWith, Skip, At, CommaText;
    ItemsUnfold(items, depth, fmt);
    var head := Text(items.head, depth + 1, fmt);
    var next := i + |head|;
    ItemsStart(t, i, items, depth, fmt);
    if items.tail.NoItems? {
      ValueParses(t, i, items.head, depth + 1, fmt);
      Blackens(t, next);
    } else {
      var rest := ItemsText(items.tail, depth, fmt);
      Splits(t, i, head, CommaText(fmt) + rest);
      Splits(t, next, CommaText(fmt), rest);
      FirstChar(t, next, CommaText(fmt));
      ItemsStart(t, next + |CommaText(fmt)|, items.tail, depth, fmt);
      CommaSkipped(t, next, fmt);
      ValueParses(t, i, items.head, depth + 1, fmt);
      ItemsParse(t, next + 1, next + |CommaText(fmt)|, items.tail, depth, fmt);
    }
  }

  lemma CommaSkipped(t: seq<byte>, i: nat, fmt: bool)
    requires StartsWith(t, i, CommaText(fmt)) && At(t, i + |CommaText(fmt)|) > SPACE
    ensures At(t, i) == COMMA && Skip(t, i) == i && Skip(t, i + 1) == i + |CommaText(fmt)|
  {
    FirstChar(t, i, CommaText(fmt));
    if fmt {
      assert t[i + 1] == CommaText(fmt)[1];
    }
  }

  // --------------------------------------------------------------- objects

  lemma {:induction false} SkipTwice(t: seq<byte>, i: nat)
    ensures Skip(t, Skip(t, i)) == Skip(t, i)
    ensures At(t, Skip(t, i)) == 0 || At(t, Skip(t, i)) > SPACE
    ensures At(t, Skip(t, i)) == RBRACE ==> EndsNumber(At(t, i))
    decreases Left(t, i)
  {
    if White(At(t, i)) {
      SkipTwice(t, i + 1);
    }
  }

  function Break(fmt: bool): (s: seq<byte>)
    ensures forall k :: 0 <= k < |s| ==> White(s[k])
  {
    if fmt then [NEWLINE] else []
  }

  function Indent(n: int, fmt: bool): (s: seq<byte>)
    ensures forall k :: 0 <= k < |s| ==> White(s[k])
  {
    if fmt then Tabs(n) else []
  }

  function ColonText(fmt: bool): seq<byte> {
    if fmt then [COLON, TAB] else [COLON]
  }

  lemma ColonSkipped(t: seq<byte>, i: nat, fmt: bool)
    requires StartsWith(t, i, ColonText(fmt)) && At(t, i + |ColonText(fmt)|) > SPACE
    ensures At(t, i) == COLON && Skip(t, i) == i && Skip(t, i + 1) == i + |ColonText(fmt)|
  {
    FirstChar(t, i, ColonText(fmt));
    if fmt {
      assert t[i + 1] == ColonText(fmt)[1];
    }
  }

  lemma HeadParses(t: seq<byte>, i: nat, key: seq<byte>, depth: nat, fmt: bool)
    requires CString(key) && StartsWith(t, i, MemberHead(key, depth, fmt))
    requires At(t, i + |MemberHead(key, depth, fmt)|) > SPACE
    ensures At(t, Skip(t, i)) == QUOTE
    ensures var k := ParseString(t, Skip(t, i));
            && k.Some? && k.value.value == key && At(t, k.value.next) == COLON && Skip(t, k.value.next) == k.value.next
            && Skip(t, k.value.next + 1) == i + |MemberHead(key, depth, fmt)|
  {
    hide StringText, ParseString, StartsWith, Skip, At;
    var ws, str := Indent(depth, fmt), StringText(key);
    assert MemberHead(key, depth, fmt) == ws + str + ColonText(fmt);
    Splits(t, i, ws + str, ColonText(fmt));
    Splits(t, i, ws, str);
    SkipsWhite(t, i, ws);
    StringParses(t, i + |ws|, key);
    Blackens(t, i + |ws|);
    ColonSkipped(t, i + |ws| + |str|, fmt);
  }

  lemma MembersUnfold(members: Members, depth: nat, fmt: bool)
    requires PrintableMembers(members) && members.Member?
    ensures MembersText(members, depth, fmt) ==
            MemberHead(members.key, depth, fmt) + Text(members.value, depth, fmt)
            + MemberEnd(members, fmt) + MembersText(members.rest, depth, fmt)
    ensures MemberEnd(members, fmt) == (if members.rest.NoMembers? then [] else [COMMA]) + Break(fmt)
    ensures members.rest.NoMembers? ==> MembersText(members.rest, depth, fmt) == []
  {
    hide Text, MemberHead;
  }

  lemma {:induction false} MembersParse(t: seq<byte>, from: nat, i: nat, members: Members, depth: nat, fmt: bool)
    requires PrintableMembers(members) && members.Member? && StartsWith(t, i, MembersText(members, depth, fmt))
    requires Skip(t, from) == Skip(t, i) && At(t, Skip(t, i + |MembersText(members, depth, fmt)|)) == RBRACE
    ensures At(t, Skip(t, i)) == QUOTE
    ensures ParseMembers(t, from) == Some(Parsed(members, Skip(t, i + |MembersText(members, depth, fmt)|)))
    decreases members, 2
  {
    hide Text, MembersText, MemberHead, MemberEnd, ParseValue, ParseString, StartsWith, Skip, At;
    MembersUnfold(members, depth, fmt);
    var head, value := MemberHead(members.key, depth, fmt), Text(members.value, depth, fmt);
    var end, rest := MemberEnd(members, fmt), MembersText(members.rest, depth, fmt);
    var vi := i + |head|;
    var next := vi + |value|;
    Splits(t, i, head + value + end, rest);
    Splits(t, i, head + value, end);
    Splits(t, i, head, value);
    TextStart(members.value, depth, fmt);
    FirstChar(t, vi, value);
    HeadParses(t, i, members.key, depth, fmt);
    Blackens(t, vi);
    if members.rest.NoMembers? {
      SkipTwice(t, next + |end|);
      LastEnd(t, next, fmt);
      ValueParses(t, vi, members.value, depth, fmt);
    } else {
      Splits(t, next, [COMMA], Break(fmt));
      FirstChar(t, next, [COMMA]);
      Blackens(t, next);
      SkipsWhite(t, next + 1, Break(fmt));
      ValueParses(t, vi, members.value, depth, fmt);
      MembersParse(t, next + 1, next + |end|, members.rest, depth, fmt);
    }
  }

  lemma LastEnd(t: seq<byte>, i: nat, fmt: bool)
    requires StartsWith(t, i, [] + Break(fmt)) && EndsNumber(At(t, i + |Break(fmt)|))
    ensures Skip(t, i) == Skip(t, i + |Break(fmt)|) && EndsNumber(At(t, i))
  {
    assert [] + Break(fmt) == Break(fmt);
    SkipsWhite(t, i, Break(fmt));
    if fmt {
      FirstChar(t, i, Break(fmt));
    }
  }

  lemma ObjectUnfold(members: Members, depth: nat, fmt: bool)
    requires PrintableMembers(members)
    ensures Text(Object(members), depth, fmt) ==
            if members.NoMembers? then [LBRACE] + (Break(fmt) + Indent(depth - 1, fmt)) + [RBRACE]
            else [LBRACE] + Break(fmt) + MembersText(members, depth + 1, fmt) + Indent(depth, fmt) + [RBRACE]
  {
    hide MembersText;
    if members.NoMembers? && !fmt {
      assert [LBRACE] + ([] + []) + [RBRACE] == [LBRACE] + [] + [RBRACE];
    }
  }

  lemma {:induction false} ObjectParses(t: seq<byte>, i: nat, v: Json, depth: nat, fmt: bool)
    requires Printable(v) && v.Object? && StartsWith(t, i, Text(v, depth, fmt))
    ensures At(t, i) == LBRACE && ParseObject(t, i) == Some(Parsed(v, i + |Text(v, depth, fmt)|))
    decreases v, 0
  {
    hide ParseMembers, MembersText, StartsWith, Skip, At, Tabs, Indent;
    var members := v.members;
    ObjectUnfold(members, depth, fmt);
    hide Text;
    if members.NoMembers? {
      EmptyObjectParses(t, i, Break(fmt) + Indent(depth - 1, fmt));
    } else {
      FilledObjectParses(t, i, members, depth, fmt);
    }
  }

  lemma EmptyObjectParses(t: seq<byte>, i: nat, ws: seq<byte>)
    requires StartsWith(t, i, [LBRACE] + ws + [RBRACE]) && forall k :: 0 <= k < |ws| ==> White(ws[k])
    ensures At(t, i) == LBRACE && ParseObject(t, i) == Some(Parsed(Object(NoMembers), i + 2 + |ws|))
  {
    hide StartsWith, Skip, At;
    Splits(t, i, [LBRACE] + ws, [RBRACE]);
    Splits(t, i, [LBRACE], ws);
    FirstChar(t, i, [LBRACE]);
    SkipsWhite(t, i + 1, ws);
    FirstChar(t, i + 1 + |ws|, [RBRACE]);
    Blackens(t, i + 1 + |ws|);
  }

  lemma {:induction false} FilledObjectParses(t: seq<byte>, i: nat, members: Members, depth: nat, fmt: bool)
    requires PrintableMembers(members) && members.Member?
    requires var body := MembersText(members, depth + 1, fmt);
             StartsWith(t, i, [LBRACE] + Break(fmt) + body + Indent(depth, fmt) + [RBRACE])
    ensures At(t, i) == LBRACE
    ensures ParseObject(t, i) ==
            var body := MembersText(members, depth + 1, fmt);
            Some(Parsed(Object(members), i + 2 + |Break(fmt)| + |body| + |Indent(depth, fmt)|))
    decreases members, 3
  {
    hide ParseMembers, MembersText, StartsWith, Skip, At, Tabs, Indent, Break;
    var body, ws := MembersText(members, depth + 1, fmt), Indent(depth, fmt);
    var start := i + 1 + |Break(fmt)|;
    Splits(t, i, [LBRACE] + Break(fmt) + body + ws, [RBRACE]);
    Splits(t, i, [LBRACE] + Break(fmt) + body, ws);
    Splits(t, i, [LBRACE] + Break(fmt), body);
    Splits(t, i, [LBRACE], Break(fmt));
    FirstChar(t, i, [LBRACE]);
    SkipsWhite(t, i + 1, Break(fmt));
    SkipTwice(t, i + 1);
    SkipsWhite(t, start + |body|, ws);
    FirstChar(t, start + |body| + |ws|, [RBRACE]);
    Blackens(t, start + |body| + |ws|);
    MembersParse(t, Skip(t, i + 1), start, members, depth + 1, fmt);
  }

  // The inversion law: whatever text follows, as long as it cannot prolong a number, parsing
  // the printed form of a tree gives the tree back and stops right behind it.
  lemma PrintThenParse(v: Json, fmt: bool, after: seq<byte>)
    requires Printable(v) && EndsNumber(At(after, 0))
    ensures Parse(Print(v, fmt) + after) == Some(Parsed(v, |Print(v, fmt)|))
  {
    hide Text, ParseValue, StartsWith;
    var t := Print(v, fmt) + after;
    assert StartsWith(t, 0, Print(v, fmt)) by { StartsItself(Print(v, fmt), after); }
    TextStart(v, 0, fmt);
    ValueParses(t, 0, v, 0, fmt);
  }

  lemma StartsItself(s: seq<byte>, after: seq<byte>)
    ensures StartsWith(s + after, 0, s)
  {}
}
