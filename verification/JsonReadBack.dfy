// Printing and parsing as the programs of packages/cJSON-v1.0.2/cJSON.c run: the
// parser reads every printed text within its bounds, and gives the tree back.
module JsonReadBack {
  import opened Bytes
  import opened JsonPrint
  import opened JsonParse
  import opened JsonRoundTrip
  import opened JsonReader
  import JsonAlloc

  // From p on every backslash starts an escape of the kind print_string_ptr writes.
  predicate Escaped(t: seq<byte>, p: nat)
    decreases |t| - p
  {
    p >= |t| ||
    if t[p] != BACKSLASH then Escaped(t, p + 1)
    else if At(t, p + 1) == LOWER_U then ControlEscape(t, p) && Escaped(t, p + 6)
    else At(t, p + 1) != 0 && Escaped(t, p + 2)
  }

  // The four digits of a control character
  predicate ControlEscape(t: seq<byte>, p: nat) {
    At(t, p + 2) == DIGIT_0 && At(t, p + 3) == DIGIT_0 && FourCounted(t, p + 2)
  }

  // ----------------------------------------------- such texts fit the parser

  lemma {:induction false} EscapedWhole(t: seq<byte>, p: nat)
    requires Escaped(t, p)
    ensures WholeEscapes(t, p)
    decreases |t| - p
  {
    if p < |t| && t[p] != QUOTE && t[p] != 0 {
      if t[p] != BACKSLASH {
        EscapedWhole(t, p + 1);
      } else if At(t, p + 1) == LOWER_U {
        ControlShort(t, p);
        EscapedWhole(t, p + 6);
      } else {
        EscapedWhole(t, p + 2);
      }
    }
  }

  lemma ControlShort(t: seq<byte>, p: nat)
    requires ControlEscape(t, p)
    ensures ParseUnicode(t, p + 1).next == p + 5
  {
    hide Utf8;
    assert ParseHex4(t, p + 2) < 0x100;
  }

  // Behind a quote, escaped or not, such text goes on.
  lemma {:induction false} BehindQuote(t: seq<byte>, p: nat, i: nat)
    requires Escaped(t, p) && p <= i < |t| && t[i] == QUOTE
    ensures Escaped(t, i + 1)
    decreases |t| - p
  {
    if t[p] != BACKSLASH {
      if p < i {
        BehindQuote(t, p + 1, i);
      }
    } else if At(t, p + 1) == LOWER_U {
      BehindQuote(t, p + 6, i);
    } else if p + 1 < i {
      BehindQuote(t, p + 2, i);
    }
  }

  lemma EscapedStrings(t: seq<byte>)
    requires Escaped(t, 0)
    ensures WholeStrings(t)
  {
    hide Escaped, WholeEscapes;
    forall i: nat | At(t, i) == QUOTE ensures WholeEscapes(t, i + 1) {
      BehindQuote(t, 0, i);
      EscapedWhole(t, i + 1);
    }
  }

  // ------------------------------------------------- printed texts are such

  lemma {:induction false} Shifted(a: seq<byte>, b: seq<byte>, p: nat)
    requires Escaped(b, p)
    ensures Escaped(a + b, |a| + p)
    decreases |b| - p
  {
    if p < |b| {
      assert forall k :: p <= k ==> At(a + b, |a| + k) == At(b, k);
      if b[p] != BACKSLASH {
        Shifted(a, b, p + 1);
      } else if At(b, p + 1) == LOWER_U {
        Shifted(a, b, p + 6);
      } else {
        Shifted(a, b, p + 2);
      }
    }
  }

  lemma {:induction false} JoinedFrom(a: seq<byte>, b: seq<byte>, p: nat)
    requires Escaped(a, p) && Escaped(b, 0) && p <= |a|
    ensures Escaped(a + b, p)
    decreases |a| - p
  {
    if p == |a| {
      Shifted(a, b, 0);
    } else {
      assert forall k :: p <= k < |a| ==> At(a + b, k) == At(a, k);
      if a[p] != BACKSLASH {
        JoinedFrom(a, b, p + 1);
      } else if At(a, p + 1) == LOWER_U {
        JoinedFrom(a, b, p + 6);
      } else {
        JoinedFrom(a, b, p + 2);
      }
    }
  }

  lemma Joined(a: seq<byte>, b: seq<byte>)
    requires Escaped(a, 0) && Escaped(b, 0)
    ensures Escaped(a + b, 0)
  {
    JoinedFrom(a, b, 0);
  }

  lemma {:induction false} NoBackslash(s: seq<byte>, p: nat)
    requires BACKSLASH !in s
    ensures Escaped(s, p)
    decreases |s| - p
  {
    if p < |s| {
      NoBackslash(s, p + 1);
    }
  }

  lemma CharEscaped(c: byte)
    requires c != 0
    ensures Escaped(EscapeChar(c), 0)
  {
    var e := EscapeChar(c);
    assert Escaped(e, |e|);
    if |e| == 6 {
      assert e[4] != QUOTE && e[4] != BACKSLASH && e[5] != QUOTE && e[5] != BACKSLASH;
    }
  }

  lemma {:induction false} StringEscaped(s: seq<byte>)
    requires CString(s)
    ensures Escaped(Escape(s), 0)
    decreases |s|
  {
    hide EscapeChar, Escaped;
    if s == [] {
      NoBackslash([], 0);
    } else {
      CharEscaped(s[0]);
      StringEscaped(s[1..]);
      Joined(EscapeChar(s[0]), Escape(s[1..]));
    }
  }

  lemma QuotedEscaped(s: seq<byte>)
    requires CString(s)
    ensures Escaped(StringText(s), 0)
  {
    hide Escape, Escaped;
    NoBackslash([QUOTE], 0);
    StringEscaped(s);
    Joined([QUOTE], Escape(s));
    Joined([QUOTE] + Escape(s), [QUOTE]);
  }

  lemma {:induction false} DigitsOnly(n: nat)
    ensures BACKSLASH !in Digits(n)
  {
    if n >= 10 {
      DigitsOnly(n / 10);
    }
  }

  lemma {:induction false} ValueEscaped(v: Json, depth: nat, fmt: bool)
    requires Printable(v)
    ensures Escaped(Text(v, depth, fmt), 0)
    decreases v, 0
  {
    hide Escaped, ItemsText, MembersText, StringText, Digits, Tabs;
    match v
    case Null => NoBackslash(TEXT_NULL, 0);
    case False => NoBackslash(TEXT_FALSE, 0);
    case True => NoBackslash(TEXT_TRUE, 0);
    case Number(n, _) =>
      DigitsOnly(if n < 0 then -n else n);
      NoBackslash(NumberText(n), 0);
    case String(s) => QuotedEscaped(s);
    case Array(items) =>
      ItemsEscaped(items, depth, fmt);
      Between([LBRACKET], ItemsText(items, depth, fmt), [RBRACKET]);
    case Object(members) => ObjectEscaped(members, depth, fmt);
  }

  lemma Between(a: seq<byte>, s: seq<byte>, b: seq<byte>)
    requires BACKSLASH !in a && Escaped(s, 0) && BACKSLASH !in b
    ensures Escaped(a + s + b, 0)
  {
    hide Escaped;
    NoBackslash(a, 0);
    NoBackslash(b, 0);
    Joined(a, s);
    Joined(a + s, b);
  }

  lemma {:induction false} ItemsEscaped(items: Items, depth: nat, fmt: bool)
    requires PrintableItems(items)
    ensures Escaped(ItemsText(items, depth, fmt), 0)
    decreases items, 1
  {
    hide Escaped, Text, ItemsText;
    if items.NoItems? {
      NoItemsText(depth, fmt);
      NoBackslash([], 0);
    } else {
      ItemsUnfold(items, depth, fmt);
      var head := Text(items.head, depth + 1, fmt);
      ValueEscaped(items.head, depth + 1, fmt);
      if items.tail.NoItems? {
        assert head + [] == head;
      } else {
        ItemsEscaped(items.tail, depth, fmt);
        NoBackslash(CommaText(fmt), 0);
        Joined(CommaText(fmt), ItemsText(items.tail, depth, fmt));
        Joined(head, CommaText(fmt) + ItemsText(items.tail, depth, fmt));
      }
    }
  }

  lemma {:induction false} MembersEscaped(members: Members, depth: nat, fmt: bool)
    requires PrintableMembers(members)
    ensures Escaped(MembersText(members, depth, fmt), 0)
    decreases members, 1
  {
    hide Escaped, Text, StringText, Tabs;
    if members.NoMembers? {
      NoBackslash([], 0);
    } else {
      var key, value := StringText(members.key), Text(members.value, depth, fmt);
      var ws, colon := Indent(depth, fmt), ColonText(fmt);
      var end, rest := MemberEnd(members, fmt), MembersText(members.rest, depth, fmt);
      QuotedEscaped(members.key);
      Between(ws, key, colon);
      ValueEscaped(members.value, depth, fmt);
      NoBackslash(end, 0);
      MembersEscaped(members.rest, depth, fmt);
      Joined(ws + key + colon, value);
      Joined(ws + key + colon + value, end);
      Joined(ws + key + colon + value + end, rest);
    }
  }

  lemma {:induction false} ObjectEscaped(members: Members, depth: nat, fmt: bool)
    requires PrintableMembers(members)
    ensures Escaped(Text(Object(members), depth, fmt), 0)
    decreases members, 2
  {
    hide Escaped, Text, MembersText, Tabs;
    ObjectUnfold(members, depth, fmt);
    if members.NoMembers? {
      NoBackslash([LBRACE] + (Break(fmt) + Indent(depth - 1, fmt)) + [RBRACE], 0);
    } else {
      var body := MembersText(members, depth + 1, fmt);
      MembersEscaped(members, depth + 1, fmt);
      Between([LBRACE] + Break(fmt), body, Indent(depth, fmt));
      NoBackslash([RBRACE], 0);
      Joined([LBRACE] + Break(fmt) + body + Indent(depth, fmt), [RBRACE]);
    }
  }

  // ------------------------------------------------------- the programs meet

  // No printed text takes the parser out of its bounds, whatever its strings contain.
  lemma PrintedIsSafe(v: Json, fmt: bool, i: nat)
    requires Printable(v)
    ensures Safe(Print(v, fmt), i)
  {
    hide Text, Escaped, Safe, WholeStrings;
    ValueEscaped(v, 0, fmt);
    EscapedStrings(Print(v, fmt));
    WholeIsSafe(Print(v, fmt), i);
  }

  // cJSON_Print or cJSON_PrintUnformatted, then cJSON_ParseWithOpts on the string returned.
  method PrintAndParse(v: Json, fmt: bool, whole: bool) returns (text: array<byte>, r: Option<Parsed<Json>>)
    requires Printable(v)
    ensures fresh(text) && JsonAlloc.Holds(text, Print(v, fmt))
    ensures r == Some(Parsed(v, |Print(v, fmt)|))
  {
    hide Print, Safe, Parse, Skip;
    text := JsonAlloc.PrintAllocated(v, fmt);
    var t := JsonAlloc.Characters(text, Print(v, fmt));
    PrintedIsSafe(v, fmt, Skip(t, 0));
    PrintThenParse(v, fmt, []);
    assert t == Print(v, fmt) == Print(v, fmt) + [];
    EndOfText(t, |t|);
    r := TakeWithOpts(t, whole);
  }

  lemma EndOfText(t: seq<byte>, i: nat)
    requires |t| <= i
    ensures Skip(t, i) == i && At(t, i) == 0
  {}
}
