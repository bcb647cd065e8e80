// Minifying a printed tree, formatted or not, gives its unformatted print,
// whatever its strings contain.
module JsonMinifyPrint {
  import opened Bytes
  import opened JsonPrint
  import opened JsonParse
  import opened JsonRoundTrip
  import opened JsonMinify

  // Minifying the stretch from i to j leaves out.
  ghost predicate Yields(t: seq<byte>, i: nat, j: nat, out: seq<byte>) {
    i <= j && (Closed(t, j) ==> Closed(t, i) && Minify(t, i) == out + Minify(t, j))
  }

  lemma Chain(t: seq<byte>, i: nat, j: nat, k: nat, a: seq<byte>, b: seq<byte>)
    requires Yields(t, i, j, a) && Yields(t, j, k, b)
    ensures Yields(t, i, k, a + b)
  {
    hide Closed, NextToken;
    if Closed(t, k) {
      assert a + (b + Minify(t, k)) == a + b + Minify(t, k);
    }
  }

  predicate Plain(c: byte) {
    c != 0 && !Blank(c) && c != SLASH && c != QUOTE
  }

  lemma OneChar(t: seq<byte>, i: nat)
    requires i < |t| && (Plain(t[i]) || (Blank(t[i]) && t[i] != 0))
    ensures Yields(t, i, i + 1, if Plain(t[i]) then [t[i]] else [])
  {
    assert t[i..i + 1] == [t[i]];
  }

  lemma Nothing(t: seq<byte>, i: nat)
    ensures Yields(t, i, i, [])
  {
    if Closed(t, i) {
      assert [] + Minify(t, i) == Minify(t, i);
    }
  }

  lemma {:induction false} PlainKept(t: seq<byte>, i: nat, s: seq<byte>)
    requires StartsWith(t, i, s) && forall k :: 0 <= k < |s| ==> Plain(s[k])
    ensures Yields(t, i, i + |s|, s)
    decreases |s|
  {
    hide Yields;
    if s == [] {
      Nothing(t, i);
    } else {
      var last := |s| - 1;
      assert s == s[..last] + [s[last]];
      Splits(t, i, s[..last], [s[last]]);
      PlainKept(t, i, s[..last]);
      assert t[i + last] == s[last];
      OneChar(t, i + last);
      Chain(t, i, i + last, i + |s|, s[..last], [s[last]]);
    }
  }

  lemma {:induction false} BlanksDropped(t: seq<byte>, i: nat, s: seq<byte>)
    requires StartsWith(t, i, s) && forall k :: 0 <= k < |s| ==> Blank(s[k])
    ensures Yields(t, i, i + |s|, [])
    decreases |s|
  {
    hide Yields;
    if s == [] {
      Nothing(t, i);
    } else {
      var last := |s| - 1;
      assert s == s[..last] + [s[last]];
      Splits(t, i, s[..last], [s[last]]);
      BlanksDropped(t, i, s[..last]);
      assert t[i + last] == s[last];
      OneChar(t, i + last);
      Chain(t, i, i + last, i + |s|, [], []);
      assert s[..0] + s[..0] == s[..0] == [];
    }
  }

  // --------------------------------------------------------------- strings

  lemma CharPassed(t: seq<byte>, i: nat, c: byte)
    requires c != 0 && StartsWith(t, i, EscapeChar(c))
    ensures StringEnd(t, i) == StringEnd(t, i + |EscapeChar(c)|)
  {
    var e := EscapeChar(c);
    FirstChar(t, i, e);
    if |e| == 6 {
      assert t[i + 2] == e[2] && t[i + 3] == e[3] && t[i + 4] == e[4] && t[i + 5] == e[5];
      assert StringEnd(t, i + 2) == StringEnd(t, i + 3);
      assert StringEnd(t, i + 4) == StringEnd(t, i + 5);
    }
  }

  lemma {:induction false} CharsPassed(t: seq<byte>, i: nat, s: seq<byte>)
    requires CString(s) && StartsWith(t, i, Escape(s)) && At(t, i + |Escape(s)|) == QUOTE
    ensures StringEnd(t, i) == i + |Escape(s)|
    decreases |s|
  {
    hide EscapeChar;
    if s != [] {
      Splits(t, i, EscapeChar(s[0]), Escape(s[1..]));
      CharPassed(t, i, s[0]);
      CharsPassed(t, i + |EscapeChar(s[0])|, s[1..]);
    }
  }

  lemma StringKept(t: seq<byte>, i: nat, s: seq<byte>)
    requires CString(s) && StartsWith(t, i, StringText(s))
    ensures Yields(t, i, i + |StringText(s)|, StringText(s))
  {
    hide Escape, StringEnd;
    Splits(t, i, [QUOTE] + Escape(s), [QUOTE]);
    Splits(t, i, [QUOTE], Escape(s));
    FirstChar(t, i, [QUOTE]);
    FirstChar(t, i + 1 + |Escape(s)|, [QUOTE]);
    CharsPassed(t, i + 1, s);
    assert t[i..i + |StringText(s)|] == StringText(s);
  }

  // ----------------------------------------------------------------- trees

  lemma {:induction false} DigitsPlain(n: nat)
    ensures forall k :: 0 <= k < |Digits(n)| ==> Plain(Digits(n)[k])
  {
    if n >= 10 {
      DigitsPlain(n / 10);
    }
  }

  lemma NumberKept(t: seq<byte>, i: nat, n: int)
    requires StartsWith(t, i, NumberText(n))
    ensures Yields(t, i, i + |NumberText(n)|, NumberText(n))
  {
    hide Yields;
    DigitsPlain(if n < 0 then -n else n);
    PlainKept(t, i, NumberText(n));
  }

  lemma {:induction false} ValueMinifies(t: seq<byte>, i: nat, v: Json, depth: nat, fmt: bool)
    requires Printable(v) && StartsWith(t, i, Text(v, depth, fmt))
    ensures Yields(t, i, i + |Text(v, depth, fmt)|, Text(v, depth, false))
    decreases v, 0
  {
    hide Yields, ItemsText, MembersText, NumberText, StringText, Tabs;
    match v
    case Null => PlainKept(t, i, TEXT_NULL);
    case False => PlainKept(t, i, TEXT_FALSE);
    case True => PlainKept(t, i, TEXT_TRUE);
    case Number(n, _) => NumberKept(t, i, n);
    case String(s) => StringKept(t, i, s);
    case Array(items) => ArrayMinifies(t, i, items, depth, fmt);
    case Object(members) => ObjectMinifies(t, i, members, depth, fmt);
  }

  lemma {:induction false} ArrayMinifies(t: seq<byte>, i: nat, items: Items, depth: nat, fmt: bool)
    requires PrintableItems(items)
    requires StartsWith(t, i, [LBRACKET] + ItemsText(items, depth, fmt) + [RBRACKET])
    ensures Yields(t, i, i + 2 + |ItemsText(items, depth, fmt)|,
                   [LBRACKET] + ItemsText(items, depth, false) + [RBRACKET])
    decreases items, 2
  {
    hide Yields, ItemsText;
    var body := ItemsText(items, depth, fmt);
    Splits(t, i, [LBRACKET] + body, [RBRACKET]);
    Splits(t, i, [LBRACKET], body);
    PlainKept(t, i, [LBRACKET]);
    ItemsMinify(t, i + 1, items, depth, fmt);
    PlainKept(t, i + 1 + |body|, [RBRACKET]);
    Chain(t, i, i + 1, i + 1 + |body|, [LBRACKET], ItemsText(items, depth, false));
    Chain(t, i, i + 1 + |body|, i + 2 + |body|, [LBRACKET] + ItemsText(items, depth, false), [RBRACKET]);
  }

  lemma CommaMinifies(t: seq<byte>, i: nat, fmt: bool)
    requires StartsWith(t, i, CommaText(fmt))
    ensures Yields(t, i, i + |CommaText(fmt)|, CommaText(false))
  {
    hide Yields;
    if fmt {
      assert CommaText(fmt) == [COMMA] + [SPACE];
      Splits(t, i, [COMMA], [SPACE]);
      BlanksDropped(t, i + 1, [SPACE]);
      PlainKept(t, i, [COMMA]);
      Chain(t, i, i + 1, i + 2, [COMMA], []);
      assert [COMMA] + [] == [COMMA];
    } else {
      PlainKept(t, i, [COMMA]);
    }
  }

  lemma {:induction false} ItemsMinify(t: seq<byte>, i: nat, items: Items, depth: nat, fmt: bool)
    requires PrintableItems(items) && StartsWith(t, i, ItemsText(items, depth, fmt))
    ensures Yields(t, i, i + |ItemsText(items, depth, fmt)|, ItemsText(items, depth, false))
    decreases items, 1
  {
    hide Yields, ItemsText, Text, CommaText;
    if items.NoItems? {
      NoItemsText(depth, fmt);
      NoItemsText(depth, false);
      Nothing(t, i);
    } else {
      ItemsUnfold(items, depth, fmt);
      ItemsUnfold(items, depth, false);
      var head, small := Text(items.head, depth + 1, fmt), Text(items.head, depth + 1, false);
      if items.tail.NoItems? {
        assert head + [] == head && small + [] == small;
        ValueMinifies(t, i, items.head, depth + 1, fmt);
      } else {
        var comma, rest := CommaText(fmt), ItemsText(items.tail, depth, fmt);
        Splits(t, i, head, comma + rest);
        Splits(t, i + |head|, comma, rest);
        ValueMinifies(t, i, items.head, depth + 1, fmt);
        CommaMinifies(t, i + |head|, fmt);
        ItemsMinify(t, i + |head| + |comma|, items.tail, depth, fmt);
        var i1, rest' := i + |head|, ItemsText(items.tail, depth, false);
        Chain(t, i1, i1 + |comma|, i1 + |comma| + |rest|, CommaText(false), rest');
        Chain(t, i, i1, i1 + |comma| + |rest|, small, CommaText(false) + rest');
      }
    }
  }

  lemma ColonMinifies(t: seq<byte>, i: nat, fmt: bool)
    requires StartsWith(t, i, ColonText(fmt))
    ensures Yields(t, i, i + |ColonText(fmt)|, ColonText(false))
  {
    hide Yields;
    if fmt {
      assert ColonText(fmt) == [COLON] + [TAB];
      Splits(t, i, [COLON], [TAB]);
      BlanksDropped(t, i + 1, [TAB]);
      PlainKept(t, i, [COLON]);
      Chain(t, i, i + 1, i + 2, [COLON], []);
      assert [COLON] + [] == [COLON];
    } else {
      PlainKept(t, i, [COLON]);
    }
  }

  lemma HeadMinifies(t: seq<byte>, i: nat, key: seq<byte>, depth: nat, fmt: bool)
    requires CString(key) && StartsWith(t, i, MemberHead(key, depth, fmt))
    ensures Yields(t, i, i + |MemberHead(key, depth, fmt)|, MemberHead(key, depth, false))
  {
    hide Yields, StringText;
    var ws, str := Indent(depth, fmt), StringText(key);
    assert MemberHead(key, depth, fmt) == ws + str + ColonText(fmt);
    Splits(t, i, ws + str, ColonText(fmt));
    Splits(t, i, ws, str);
    BlanksDropped(t, i, ws);
    StringKept(t, i + |ws|, key);
    ColonMinifies(t, i + |ws| + |str|, fmt);
    Chain(t, i, i + |ws|, i + |ws| + |str|, [], str);
    Chain(t, i, i + |ws| + |str|, i + |MemberHead(key, depth, fmt)|, [] + str, ColonText(false));
  }

  lemma EndMinifies(t: seq<byte>, i: nat, members: Members, fmt: bool)
    requires members.Member? && StartsWith(t, i, MemberEnd(members, fmt))
    ensures Yields(t, i, i + |MemberEnd(members, fmt)|, MemberEnd(members, false))
  {
    hide Yields;
    var comma: seq<byte> := if members.rest.NoMembers? then [] else [COMMA];
    Splits(t, i, comma, Break(fmt));
    PlainKept(t, i, comma);
    BlanksDropped(t, i + |comma|, Break(fmt));
    Chain(t, i, i + |comma|, i + |comma| + |Break(fmt)|, comma, []);
  }

  lemma {:induction false} MembersMinify(t: seq<byte>, i: nat, members: Members, depth: nat, fmt: bool)
    requires PrintableMembers(members) && StartsWith(t, i, MembersText(members, depth, fmt))
    ensures Yields(t, i, i + |MembersText(members, depth, fmt)|, MembersText(members, depth, false))
    decreases members, 1
  {
    hide Yields, Text, MemberHead, MemberEnd;
    if members.NoMembers? {
      Nothing(t, i);
    } else {
      var head, value := MemberHead(members.key, depth, fmt), Text(members.value, depth, fmt);
      var end, rest := MemberEnd(members, fmt), MembersText(members.rest, depth, fmt);
      var head', value' := MemberHead(members.key, depth, false), Text(members.value, depth, false);
      var end', rest' := MemberEnd(members, false), MembersText(members.rest, depth, false);
      var i1 := i + |head|;
      var i2 := i1 + |value|;
      var i3 := i2 + |end|;
      Splits(t, i, head + value + end, rest);
      Splits(t, i, head + value, end);
      Splits(t, i, head, value);
      HeadMinifies(t, i, members.key, depth, fmt);
      ValueMinifies(t, i1, members.value, depth, fmt);
      EndMinifies(t, i2, members, fmt);
      MembersMinify(t, i3, members.rest, depth, fmt);
      Chain(t, i, i1, i2, head', value');
      Chain(t, i, i2, i3, head' + value', end');
      Chain(t, i, i3, i3 + |rest|, head' + value' + end', rest');
    }
  }

  lemma {:induction false} ObjectMinifies(t: seq<byte>, i: nat, members: Members, depth: nat, fmt: bool)
    requires PrintableMembers(members) && StartsWith(t, i, Text(Object(members), depth, fmt))
    ensures Yields(t, i, i + |Text(Object(members), depth, fmt)|, Text(Object(members), depth, false))
    decreases members, 2
  {
    hide Yields, Text, MembersText, Tabs;
    ObjectUnfold(members, depth, fmt);
    ObjectUnfold(members, depth, false);
    if members.NoMembers? {
      var ws := Break(fmt) + Indent(depth - 1, fmt);
      assert [LBRACE] + ws + [] + [] + [RBRACE] == [LBRACE] + ws + [RBRACE];
      assert [LBRACE] + (Break(false) + Indent(depth - 1, false)) + [RBRACE] == [LBRACE] + [] + [RBRACE];
      Nothing(t, i + 1 + |ws|);
      BracedMinifies(t, i, ws, [], [], []);
    } else {
      var body, small := MembersText(members, depth + 1, fmt), MembersText(members, depth + 1, false);
      SplitBraced(t, i, Break(fmt), body, Indent(depth, fmt));
      MembersMinify(t, i + 1 + |Break(fmt)|, members, depth + 1, fmt);
      BracedMinifies(t, i, Break(fmt), body, small, Indent(depth, fmt));
      assert [LBRACE] + Break(false) + small + Indent(depth, false) + [RBRACE] == [LBRACE] + small + [RBRACE];
    }
  }

  lemma SplitBraced(t: seq<byte>, i: nat, ws: seq<byte>, body: seq<byte>, ws': seq<byte>)
    requires StartsWith(t, i, [LBRACE] + ws + body + ws' + [RBRACE])
    ensures StartsWith(t, i, [LBRACE]) && StartsWith(t, i + 1, ws) && StartsWith(t, i + 1 + |ws|, body)
    ensures StartsWith(t, i + 1 + |ws| + |body|, ws') && StartsWith(t, i + 1 + |ws| + |body| + |ws'|, [RBRACE])
  {
    hide StartsWith;
    Splits(t, i, [LBRACE] + ws + body + ws', [RBRACE]);
    Splits(t, i, [LBRACE] + ws + body, ws');
    Splits(t, i, [LBRACE] + ws, body);
    Splits(t, i, [LBRACE], ws);
  }

  // White space on both sides of an object's members goes, the members shrink.
  lemma BracedMinifies(t: seq<byte>, i: nat, ws: seq<byte>, body: seq<byte>, small: seq<byte>, ws': seq<byte>)
    requires StartsWith(t, i, [LBRACE] + ws + body + ws' + [RBRACE])
    requires forall k :: 0 <= k < |ws| ==> Blank(ws[k])
    requires forall k :: 0 <= k < |ws'| ==> Blank(ws'[k])
    requires Yields(t, i + 1 + |ws|, i + 1 + |ws| + |body|, small)
    ensures Yields(t, i, i + |[LBRACE] + ws + body + ws' + [RBRACE]|, [LBRACE] + small + [RBRACE])
  {
    hide Yields, StartsWith;
    var i1 := i + 1 + |ws|;
    var i2 := i1 + |body|;
    var i3 := i2 + |ws'|;
    SplitBraced(t, i, ws, body, ws');
    PlainKept(t, i, [LBRACE]);
    BlanksDropped(t, i + 1, ws);
    BlanksDropped(t, i2, ws');
    PlainKept(t, i3, [RBRACE]);
    Chain(t, i, i + 1, i1, [LBRACE], []);
    Chain(t, i, i1, i2, [LBRACE] + [], small);
    Chain(t, i, i2, i3, [LBRACE] + [] + small, []);
    Chain(t, i, i3, i3 + 1, [LBRACE] + [] + small + [], [RBRACE]);
    assert [LBRACE] + [] + small + [] + [RBRACE] == [LBRACE] + small + [RBRACE];
  }

  // cJSON_Minify after cJSON_Print is cJSON_PrintUnformatted; a compact text stays as it is.
  lemma MinifyAfterPrint(v: Json, fmt: bool)
    requires Printable(v)
    ensures var t := Print(v, fmt); Closed(t, 0) && Minify(t, 0) == Print(v, false)
  {
    hide Text, StartsWith, NextToken;
    var t := Print(v, fmt);
    StartsItself(t, []);
    assert t + [] == t;
    ValueMinifies(t, 0, v, 0, fmt);
    assert Print(v, false) + [] == Print(v, false);
  }
}
