// cJSON_Print and cJSON_PrintUnformatted of packages/cJSON-v1.0.2/cJSON.c: the
// printer that allocates a string for every value and joins them.  The sizes
// it sums up before it writes are enough, and the text is that of JsonPrint.
module JsonAlloc {
  import opened Bytes
  import opened JsonPrint
  import opened JsonRoundTrip
  import opened JsonBuffer
  import opened Memory

  // The C string s stands at the start of a.
  ghost predicate Holds(a: array<byte>, s: seq<byte>)
    reads a
  {
    |s| < a.Length && a[..|s|] == s && a[|s|] == 0 && CString(s)
  }

  // strlen, and the bytes it counts
  method Characters(a: array<byte>, ghost s: seq<byte>) returns (r: seq<byte>)
    requires Holds(a, s)
    ensures r == s
  {
    var n := 0;
    assert a[0] == (s + [0])[0];
    while a[n] != 0
      invariant n <= |s| && a[n] == (s + [0])[n]
      decreases |s| - n
    {
      n := n + 1;
      assert n < |s| ==> a[..|s|][n] == s[n];
    }
    r := a[..n];
  }

  // A fresh string of the given size that starts with s.
  method Allocate(s: seq<byte>, size: nat) returns (a: array<byte>)
    requires |s| < size && CString(s)
    ensures fresh(a) && Holds(a, s)
  {
    a := new byte[size];
    MemCpy(a, 0, s + [0]);
    assert a[..|s|] == a[0..0 + |s + [0]|][..|s|];
    assert a[|s|] == a[0..0 + |s + [0]|][|s|];
  }

  // memcpy at a moving pointer, with a zero behind, which the next piece overwrites.
  method AppendClosed(a: array<byte>, ptr: nat, s: seq<byte>) returns (next: nat)
    requires ptr + |s| < a.Length
    modifies a
    ensures next == ptr + |s| && a[..next] == old(a[..ptr]) + s && a[next] == 0
  {
    next := Put(a, ptr, s);
    a[next] := 0;
  }

  // ---------------------------------------------------------------- arrays

  function Texts(items: Items, depth: nat, fmt: bool): seq<seq<byte>>
    requires PrintableItems(items)
  {
    if items.NoItems? then [] else [Text(items.head, depth + 1, fmt)] + Texts(items.tail, depth, fmt)
  }

  // What print_array makes of its entries.
  function Joined(entries: seq<seq<byte>>, fmt: bool): seq<byte> {
    if entries == [] then []
    else entries[0] + if |entries| == 1 then [] else CommaText(fmt) + Joined(entries[1..], fmt)
  }

  lemma {:induction false} JoinedTexts(items: Items, depth: nat, fmt: bool)
    requires PrintableItems(items)
    ensures Joined(Texts(items, depth, fmt), fmt) == ItemsText(items, depth, fmt)
    decreases items
  {
    hide Text, CommaText;
    NoItemsText(depth, fmt);
    if items.Item? {
      var es, rest := Texts(items, depth, fmt), Texts(items.tail, depth, fmt);
      assert es[1..] == rest;
      JoinedTexts(items.tail, depth, fmt);
      ItemsUnfold(items, depth, fmt);
    }
  }

  lemma {:induction false} JoinedCString(entries: seq<seq<byte>>, fmt: bool)
    requires forall i :: 0 <= i < |entries| ==> CString(entries[i])
    ensures CString(Joined(entries, fmt))
    decreases |entries|
  {
    if entries != [] {
      JoinedCString(entries[1..], fmt);
    }
  }

  // print_array's last loop
  method Join(out: array<byte>, entries: seq<seq<byte>>, fmt: bool)
    requires |Joined(entries, fmt)| + 2 < out.Length && forall i :: 0 <= i < |entries| ==> CString(entries[i])
    modifies out
    ensures Holds(out, [LBRACKET] + Joined(entries, fmt) + [RBRACKET])
  {
    hide CommaText, Joined;
    ghost var whole := [LBRACKET] + Joined(entries, fmt);
    JoinedCString(entries, fmt);
    var ptr: nat := AppendClosed(out, 0, [LBRACKET]);
    assert entries[0..] == entries;
    for i := 0 to |entries|
      invariant ptr <= out.Length && out[..ptr] + Joined(entries[i..], fmt) == whole
    {
      JoinedStep(entries, i, fmt);
      ghost var done := out[..ptr];
      ptr := Put(out, ptr, entries[i]);
      if i != |entries| - 1 {
        ptr := AppendClosed(out, ptr, CommaText(fmt));
      }
      Glue(done, entries[i], CommaText(fmt), Joined(entries[i + 1..], fmt));
    }
    JoinedNone(fmt);
    assert entries[|entries|..] == [] && out[..ptr] + [] == out[..ptr];
    ptr := AppendClosed(out, ptr, [RBRACKET]);
  }

  lemma JoinedStep(entries: seq<seq<byte>>, i: nat, fmt: bool)
    requires i < |entries|
    ensures Joined(entries[i..], fmt) ==
            entries[i] + if i == |entries| - 1 then [] else CommaText(fmt) + Joined(entries[i + 1..], fmt)
    ensures i == |entries| - 1 ==> Joined(entries[i + 1..], fmt) == []
  {
    assert entries[i..][1..] == entries[i + 1..];
  }

  lemma JoinedNone(fmt: bool)
    ensures Joined([], fmt) == []
  {}

  lemma Glue(done: seq<byte>, entry: seq<byte>, comma: seq<byte>, rest: seq<byte>)
    ensures done + entry + comma + rest == done + (entry + (comma + rest))
    ensures done + entry + [] == done + (entry + [])
  {}

  // --------------------------------------------------------------- objects

  datatype Pair = Pair(name: seq<byte>, entry: seq<byte>)

  function Pairs(members: Members, depth: nat, fmt: bool): seq<Pair>
    requires PrintableMembers(members)
  {
    if members.NoMembers? then []
    else [Pair(StringText(members.key), Text(members.value, depth, fmt))] + Pairs(members.rest, depth, fmt)
  }

  // One line of an object, from its indentation to its end.
  function Line(p: Pair, last: bool, depth: nat, fmt: bool): (s: seq<byte>)
    ensures |s| <= |p.name| + |p.entry| + 2 + if fmt then 2 + depth else 0
  {
    Indent(depth, fmt) + p.name + ColonText(fmt) + p.entry + (if last then [] else [COMMA]) + Break(fmt)
  }

  // What print_object makes of its names and entries.
  function Lines(pairs: seq<Pair>, depth: nat, fmt: bool): seq<byte> {
    if pairs == [] then [] else Line(pairs[0], |pairs| == 1, depth, fmt) + Lines(pairs[1..], depth, fmt)
  }

  lemma LineIsMember(members: Members, depth: nat, fmt: bool)
    requires PrintableMembers(members) && members.Member?
    ensures Line(Pair(StringText(members.key), Text(members.value, depth, fmt)), members.rest.NoMembers?, depth, fmt)
            == MemberHead(members.key, depth, fmt) + Text(members.value, depth, fmt) + MemberEnd(members, fmt)
  {
    hide Text, StringText;
    Assoc(Indent(depth, fmt) + StringText(members.key) + ColonText(fmt) + Text(members.value, depth, fmt),
          if members.rest.NoMembers? then [] else [COMMA], Break(fmt));
  }

  lemma Assoc(a: seq<byte>, b: seq<byte>, c: seq<byte>)
    ensures a + b + c == a + (b + c)
  {}

  lemma {:induction false} LinesOfPairs(members: Members, depth: nat, fmt: bool)
    requires PrintableMembers(members)
    ensures Lines(Pairs(members, depth, fmt), depth, fmt) == MembersText(members, depth, fmt)
    decreases members
  {
    hide Text, Line, MemberHead;
    NoMembersText(depth, fmt);
    if members.Member? {
      var ps, rest := Pairs(members, depth, fmt), Pairs(members.rest, depth, fmt);
      assert ps[1..] == rest;
      LinesOfPairs(members.rest, depth, fmt);
      LineIsMember(members, depth, fmt);
      MembersUnfold(members, depth, fmt);
    }
  }

  lemma {:induction false} LinesCString(pairs: seq<Pair>, depth: nat, fmt: bool)
    requires forall i :: 0 <= i < |pairs| ==> CString(pairs[i].name) && CString(pairs[i].entry)
    ensures CString(Lines(pairs, depth, fmt))
    decreases |pairs|
  {
    if pairs != [] {
      LinesCString(pairs[1..], depth, fmt);
    }
  }

  // One turn of print_object's writing loop
  method WriteLine(out: array<byte>, at: nat, p: Pair, last: bool, depth: nat, fmt: bool) returns (ptr: nat)
    requires at + |Line(p, last, depth, fmt)| < out.Length
    modifies out
    ensures ptr == at + |Line(p, last, depth, fmt)| && out[..ptr] == old(out[..at]) + Line(p, last, depth, fmt)
  {
    ghost var done := out[..at];
    ptr := Put(out, at, Indent(depth, fmt));
    ptr := Put(out, ptr, p.name);
    ptr := Put(out, ptr, ColonText(fmt));
    ptr := Put(out, ptr, p.entry);
    ptr := AppendClosed(out, ptr, (if last then [] else [COMMA]) + Break(fmt));
    Regroup6(done, Indent(depth, fmt), p.name, ColonText(fmt), p.entry, if last then [] else [COMMA], Break(fmt));
  }

  lemma Regroup6(a: seq<byte>, b: seq<byte>, c: seq<byte>, d: seq<byte>, e: seq<byte>, f: seq<byte>, g: seq<byte>)
    ensures a + b + c + d + e + (f + g) == a + (b + c + d + e + f + g)
  {}

  // print_object's last loop
  method JoinLines(out: array<byte>, pairs: seq<Pair>, depth: nat, fmt: bool)
    requires |[LBRACE] + Break(fmt) + Lines(pairs, depth + 1, fmt) + Indent(depth, fmt)| + 1 < out.Length
    requires forall i :: 0 <= i < |pairs| ==> CString(pairs[i].name) && CString(pairs[i].entry)
    modifies out
    ensures Holds(out, [LBRACE] + Break(fmt) + Lines(pairs, depth + 1, fmt) + Indent(depth, fmt) + [RBRACE])
  {
    hide Lines, Line, Break, Indent;
    ghost var whole := [LBRACE] + Break(fmt) + Lines(pairs, depth + 1, fmt);
    LinesCString(pairs, depth + 1, fmt);
    var ptr: nat := AppendClosed(out, 0, [LBRACE] + Break(fmt));
    assert pairs[0..] == pairs;
    for i := 0 to |pairs|
      invariant ptr <= out.Length && out[..ptr] + Lines(pairs[i..], depth + 1, fmt) == whole
    {
      LinesStep(pairs, i, depth + 1, fmt);
      ghost var done := out[..ptr];
      ptr := WriteLine(out, ptr, pairs[i], i == |pairs| - 1, depth + 1, fmt);
      Assoc(done, Line(pairs[i], i == |pairs| - 1, depth + 1, fmt), Lines(pairs[i + 1..], depth + 1, fmt));
    }
    NoLines(depth + 1, fmt);
    assert pairs[|pairs|..] == [] && out[..ptr] + [] == out[..ptr];
    ptr := Put(out, ptr, Indent(depth, fmt));
    ptr := AppendClosed(out, ptr, [RBRACE]);
  }

  lemma NoLines(depth: nat, fmt: bool)
    ensures Lines([], depth, fmt) == []
  {}

  lemma LinesStep(pairs: seq<Pair>, i: nat, depth: nat, fmt: bool)
    requires i < |pairs|
    ensures Lines(pairs[i..], depth, fmt) ==
            Line(pairs[i], i == |pairs| - 1, depth, fmt) + Lines(pairs[i + 1..], depth, fmt)
  {
    assert pairs[i..][1..] == pairs[i + 1..];
  }

  // ------------------------------------------------------------ the printer

  // print_value without a buffer
  method PrintValue(v: Json, depth: nat, fmt: bool) returns (out: array<byte>)
    requires Printable(v)
    ensures fresh(out) && Holds(out, Text(v, depth, fmt))
    decreases Size(v), 1
  {
    hide NumberText, StringText;
    match v
    case Null => out := Allocate(TEXT_NULL, 5);
    case False => out := Allocate(TEXT_FALSE, 6);
    case True => out := Allocate(TEXT_TRUE, 5);
    case Number(m, _) => out := PrintNumber(m);
    case String(str) => out := PrintString(str);
    case Array(items) => out := PrintArray(items, depth, fmt);
    case Object(members) => out := PrintObject(members, depth, fmt);
  }

  // print_number, for numbers that fit an int
  method PrintNumber(n: int) returns (out: array<byte>)
    requires INT_MIN <= n <= INT_MAX
    ensures fresh(out) && Holds(out, NumberText(n))
  {
    NumberFits(n);
    if n == 0 {
      out := Allocate([DIGIT_0], 2);
    } else {
      out := Allocate(NumberText(n), 21);
    }
  }

  // print_string_ptr without a buffer
  method PrintString(str: seq<byte>) returns (out: array<byte>)
    requires CString(str)
    ensures fresh(out) && Holds(out, StringText(str))
  {
    hide Escape, Special;
    EscapeCString(str);
    var flag := false;
    for i := 0 to |str|
      invariant flag <==> exists k :: 0 <= k < i && Special(str[k])
    {
      flag := flag || Special(str[i]);
    }
    if !flag {
      EscapeNothing(str);
      out := Allocate([QUOTE] + str + [QUOTE], |str| + 3);
    } else {
      var len := EscapedLength(str);
      out := new byte[len + 3];
      WriteEscaped(out, 0, str);
      assert out[..|StringText(str)|] == out[0..0 + |StringText(str)|];
    }
  }

  // print_array without a buffer
  method PrintArray(items: Items, depth: nat, fmt: bool) returns (out: array<byte>)
    requires PrintableItems(items)
    ensures fresh(out) && Holds(out, Text(Array(items), depth, fmt))
    decreases ItemsSize(items), 0
  {
    hide PrintableItems, ItemsText, ItemsSize, Texts, Joined;
    JoinedTexts(items, depth, fmt);
    NoItemsText(depth, fmt);
    if items.NoItems? {
      out := Allocate([LBRACKET, RBRACKET], 3);
      return;
    }
    var len, child, entries := 5, items, [];
    while child.Item?
      invariant PrintableItems(child) && ItemsSize(child) <= ItemsSize(items)
      invariant entries + Texts(child, depth, fmt) == Texts(items, depth, fmt)
      invariant len + |ItemsText(child, depth, fmt)| >= 5 + |ItemsText(items, depth, fmt)|
      invariant forall i :: 0 <= i < |entries| ==> CString(entries[i])
      decreases child
    {
      ItemsTail(child);
      ItemsUnfold(child, depth, fmt);
      TextsStep(child, depth, fmt);
      var ret := PrintValue(child.head, depth + 1, fmt);
      var entry := Characters(ret, Text(child.head, depth + 1, fmt));
      len := len + |entry| + 2 + (if fmt then 1 else 0);
      entries := entries + [entry];
      child := child.tail;
    }
    TextsNone(depth, fmt);
    assert child == NoItems && entries + [] == entries;
    out := new byte[len];
    Join(out, entries, fmt);
  }

  lemma TextsStep(items: Items, depth: nat, fmt: bool)
    requires PrintableItems(items) && items.Item?
    ensures PrintableItems(items.tail)
    ensures forall es: seq<seq<byte>> :: es + Texts(items, depth, fmt) ==
              es + [Text(items.head, depth + 1, fmt)] + Texts(items.tail, depth, fmt)
  {}

  lemma TextsNone(depth: nat, fmt: bool)
    ensures Texts(NoItems, depth, fmt) == []
  {}

  // print_object without a buffer
  method PrintObject(members: Members, depth: nat, fmt: bool) returns (out: array<byte>)
    requires PrintableMembers(members)
    ensures fresh(out) && Holds(out, Text(Object(members), depth, fmt))
    decreases MembersSize(members), 0
  {
    hide PrintableMembers, MembersText, MembersSize, Pairs, Lines, Text;
    ObjectUnfold(members, depth, fmt);
    LinesOfPairs(members, depth + 1, fmt);
    NoMembersText(depth + 1, fmt);
    if members.NoMembers? {
      out := Allocate([LBRACE] + (Break(fmt) + Indent(depth - 1, fmt)) + [RBRACE], if fmt then depth + 4 else 3);
      return;
    }
    var len, child, pairs := 7 + (if fmt then depth + 1 else 0), members, [];
    while child.Member?
      invariant PrintableMembers(child) && MembersSize(child) <= MembersSize(members)
      invariant pairs + Pairs(child, depth + 1, fmt) == Pairs(members, depth + 1, fmt)
      invariant len + |MembersText(child, depth + 1, fmt)| >=
                7 + (if fmt then depth + 1 else 0) + |MembersText(members, depth + 1, fmt)|
      invariant forall i :: 0 <= i < |pairs| ==> CString(pairs[i].name) && CString(pairs[i].entry)
      decreases child
    {
      MembersTail(child);
      MemberRoom(child, depth + 1, fmt);
      PairsStep(child, depth + 1, fmt);
      var str := PrintString(child.key);
      var ret := PrintValue(child.value, depth + 1, fmt);
      var name := Characters(str, StringText(child.key));
      var entry := Characters(ret, Text(child.value, depth + 1, fmt));
      len := len + |entry| + |name| + 2 + (if fmt then 2 + (depth + 1) else 0);
      pairs := pairs + [Pair(name, entry)];
      child := child.rest;
    }
    PairsNone(depth + 1, fmt);
    assert child == NoMembers && pairs + [] == pairs;
    out := new byte[len];
    JoinLines(out, pairs, depth, fmt);
  }

  lemma MemberRoom(members: Members, depth: nat, fmt: bool)
    requires PrintableMembers(members) && members.Member?
    ensures |MembersText(members, depth, fmt)| <=
            |StringText(members.key)| + |Text(members.value, depth, fmt)| + 2 + (if fmt then 2 + depth else 0)
            + |MembersText(members.rest, depth, fmt)|
  {
    hide Text, MembersText, StringText;
    MembersUnfold(members, depth, fmt);
  }

  lemma PairsStep(members: Members, depth: nat, fmt: bool)
    requires PrintableMembers(members) && members.Member?
    ensures PrintableMembers(members.rest)
    ensures forall ps: seq<Pair> :: ps + Pairs(members, depth, fmt) ==
              ps + [Pair(StringText(members.key), Text(members.value, depth, fmt))] + Pairs(members.rest, depth, fmt)
  {}

  lemma PairsNone(depth: nat, fmt: bool)
    ensures Pairs(NoMembers, depth, fmt) == []
  {}

  // cJSON_Print and cJSON_PrintUnformatted
  method PrintAllocated(v: Json, fmt: bool) returns (out: array<byte>)
    requires Printable(v)
    ensures fresh(out) && Holds(out, Print(v, fmt))
  {
    out := PrintValue(v, 0, fmt);
  }

  // The two printers agree byte for byte, up to and with the zero.
  method PrintersAgree(v: Json, prebuffer: nat, fmt: bool) returns (a: array<byte>, b: array<byte>)
    requires Printable(v) && 1 <= prebuffer && |Print(v, fmt)| + SLACK <= MAX_SIZE
    ensures fresh(a) && fresh(b)
    ensures exists n :: 0 <= n < a.Length && n < b.Length && a[..n + 1] == b[..n + 1] && a[n] == 0 && 0 !in a[..n]
  {
    hide Text;
    ghost var s := Print(v, fmt);
    a := PrintAllocated(v, fmt);
    b := PrintBuffered(v, prebuffer, fmt);
    assert a[..|s| + 1] == s + [0] == b[..|s| + 1];
    assert 0 !in a[..|s|];
  }
}
