// cJSON_PrintBuffered of packages/cJSON-v1.0.2/cJSON.c: the printer that works
// in one growing buffer writes, through every reallocation, the same text as
// the functions of JsonPrint.
module JsonBuffer {
  import opened Bytes
  import opened JsonPrint
  import opened JsonPow2
  import opened JsonRoundTrip
  import opened Memory

  // C's int sizes: what a buffer may come to hold.
  const MAX_SIZE := 0x4000_0000

  // What the widest request, print_number's, may exceed its text by.
  const SLACK := 21

  lemma EscapeEnds(str: seq<byte>)
    ensures Escape(str[..0]) == [] && Escape(str[0..]) == Escape(str[..|str|]) == Escape(str)
  {
    assert str[..|str|] == str;
  }

  lemma EscapeStep(str: seq<byte>, i: nat)
    requires i < |str|
    ensures Escape(str[..i + 1]) == Escape(str[..i]) + EscapeChar(str[i])
    ensures |Escape(str[i..])| == |EscapeChar(str[i])| + |Escape(str[i + 1..])|
  {
    EscapeAppend(str[..i], str[i]);
    assert str[..i + 1] == str[..i] + [str[i]];
    assert str[i..][1..] == str[i + 1..];
  }

  // print_string_ptr's counting loop: the length is exact.
  method EscapedLength(str: seq<byte>) returns (len: nat)
    ensures len == |Escape(str)|
  {
    len := 0;
    EscapeEnds(str);
    for i := 0 to |str|
      invariant len == |Escape(str[..i])|
    {
      EscapeStep(str, i);
      len := len + 1;
      if str[i] in [QUOTE, BACKSLASH, 0x08, 0x0C, NEWLINE, RETURN, TAB] {
        len := len + 1;
      } else if str[i] < 32 {
        len := len + 5;
      }
    }
  }

  // One character of the string, escaped where it must be.
  method WriteChar(a: array<byte>, at: nat, c: byte) returns (next: nat)
    requires at + |EscapeChar(c)| <= a.Length
    modifies a
    ensures next == at + |EscapeChar(c)| && a[..next] == old(a[..at]) + EscapeChar(c)
  {
    if c > 31 && c != QUOTE && c != BACKSLASH {
      a[at] := c;
      next := at + 1;
    } else {
      a[at] := BACKSLASH;
      next := at + 2;
      if c == BACKSLASH || c == QUOTE { a[at + 1] := c; }
      else if c == 0x08 { a[at + 1] := LOWER_B; }
      else if c == 0x0C { a[at + 1] := LOWER_F; }
      else if c == NEWLINE { a[at + 1] := LOWER_N; }
      else if c == RETURN { a[at + 1] := LOWER_R; }
      else if c == TAB { a[at + 1] := LOWER_T; }
      else {
        MemCpy(a, at + 1, [LOWER_U, DIGIT_0, DIGIT_0, HexDigit(c / 16), HexDigit(c % 16)]);
        next := at + 6;
      }
    }
  }

  // print_string_ptr's writing loop, and the closing quote and zero.
  method WriteEscaped(a: array<byte>, at: nat, str: seq<byte>)
    requires at + |StringText(str)| < a.Length
    modifies a
    ensures a[..at] == old(a[..at])
    ensures a[at..at + |StringText(str)|] == StringText(str) && a[at + |StringText(str)|] == 0
  {
    hide Escape, EscapeChar;
    ghost var before, head := a[..at], a[..at] + [QUOTE];
    a[at] := QUOTE;
    var ptr: nat := at + 1;
    EscapeEnds(str);
    for i := 0 to |str|
      invariant ptr + |Escape(str[i..])| + 1 < a.Length
      invariant a[..ptr] == head + Escape(str[..i])
    {
      EscapeStep(str, i);
      ptr := WriteChar(a, ptr, str[i]);
    }
    ghost var text := a[..ptr];
    a[ptr] := QUOTE;
    a[ptr + 1] := 0;
    assert a[..ptr + 1] == text + [QUOTE] == before + StringText(str);
  }

  lemma ItemsTail(items: Items)
    requires PrintableItems(items) && items.Item?
    ensures Printable(items.head) && PrintableItems(items.tail)
    ensures ItemsSize(items) > Size(items.head) && ItemsSize(items) > ItemsSize(items.tail)
  {}

  lemma MembersTail(members: Members)
    requires PrintableMembers(members) && members.Member?
    ensures CString(members.key) && Printable(members.value) && PrintableMembers(members.rest)
    ensures MembersSize(members) > Size(members.value) && MembersSize(members) > MembersSize(members.rest)
  {}

  lemma NoMembersText(depth: nat, fmt: bool)
    ensures MembersText(NoMembers, depth, fmt) == []
  {}

  lemma Regroup(a: seq<byte>, b: seq<byte>, c: seq<byte>, d: seq<byte>)
    ensures a + b + (c + d) == a + (b + c + d)
  {}

  lemma RoomForEnd(depth: nat, fmt: bool)
    ensures |Break(fmt)| == (if fmt then 1 else 0) && |Indent(depth, fmt)| == (if fmt then depth else 0)
    ensures CString(Indent(depth, fmt) + [RBRACE])
    ensures !fmt || depth == 0 ==> |Indent(depth - 1, fmt)| == 0
    ensures fmt && depth > 0 ==> |Indent(depth - 1, fmt)| == depth - 1
  {}

  lemma Regroup3(a: seq<byte>, b: seq<byte>, c: seq<byte>)
    ensures a + b + c == a + (b + c)
  {}

  lemma Regroup4(a: seq<byte>, b: seq<byte>, c: seq<byte>, d: seq<byte>)
    ensures a + b + c + d == a + (b + c + d)
  {}

  lemma Regroup5(a: seq<byte>, b: seq<byte>, c: seq<byte>, d: seq<byte>, e: seq<byte>)
    ensures a + b + c + d + e == a + (b + c + d + e)
  {}

  // typedef struct {char *buffer; int length; int offset;} printbuffer
  class PrintBuffer {
    var buffer: array<byte>
    var offset: nat

    ghost predicate Valid()
      reads this
    {
      offset <= buffer.Length
    }

    // The text before the offset.
    ghost function Done(): seq<byte>
      requires Valid()
      reads this, buffer
    {
      buffer[..offset]
    }

    // A piece that has been written behind the offset, closed by a zero.
    ghost predicate Pending(s: seq<byte>)
      requires Valid()
      reads this, buffer
    {
      offset + |s| < buffer.Length && buffer[offset..offset + |s|] == s && buffer[offset + |s|] == 0 && CString(s)
    }

    constructor (prebuffer: nat)
      ensures Valid() && fresh(buffer) && offset == 0 && buffer.Length == prebuffer && Done() == []
    {
      buffer := new byte[prebuffer];
      offset := 0;
    }

    // ensure
    method Ensure(needed: nat)
      requires Valid() && 0 < offset + needed <= MAX_SIZE
      modifies this`buffer
      ensures Valid() && Done() == old(Done()) && offset + needed <= buffer.Length
      ensures buffer == old(buffer) || fresh(buffer)
    {
      if offset + needed <= buffer.Length {
        return;
      }
      Pow2GtIsLeast(offset + needed);
      var newbuffer := new byte[Pow2Gt(offset + needed)];
      forall i | 0 <= i < buffer.Length {
        newbuffer[i] := buffer[i];
      }
      assert newbuffer[..buffer.Length] == buffer[..];
      assert newbuffer[..offset] == newbuffer[..buffer.Length][..offset];
      buffer := newbuffer;
    }

    // Room for at least the piece, the piece itself, and the step past it.
    method Put(s: seq<byte>, needed: nat)
      requires Valid() && |s| <= needed && 0 < offset + needed <= MAX_SIZE
      modifies this, buffer
      ensures Valid() && Done() == old(Done()) + s && offset == old(offset) + |s|
      ensures offset + needed <= buffer.Length + |s|
      ensures buffer == old(buffer) || fresh(buffer)
    {
      Ensure(needed);
      MemCpy(buffer, offset, s);
      assert buffer[..offset + |s|] == buffer[..offset] + buffer[offset..offset + |s|];
      offset := offset + |s|;
    }

    // The same with a zero behind the piece, which the next piece overwrites.
    method PutClosed(s: seq<byte>, needed: nat)
      requires Valid() && |s| < needed && offset + needed <= MAX_SIZE
      modifies this, buffer
      ensures Valid() && Done() == old(Done()) + s && offset == old(offset) + |s|
      ensures buffer == old(buffer) || fresh(buffer)
    {
      Put(s, needed);
      buffer[offset] := 0;
    }

    // Room for the piece and a zero; the offset stays.
    method PutPending(s: seq<byte>, needed: nat)
      requires Valid() && |s| < needed && offset + needed <= MAX_SIZE && CString(s)
      modifies this, buffer
      ensures Valid() && Done() == old(Done()) && Pending(s) && offset == old(offset)
      ensures buffer == old(buffer) || fresh(buffer)
    {
      Ensure(needed);
      MemCpy(buffer, offset, s + [0]);
      assert buffer[offset..offset + |s|] == buffer[offset..offset + |s| + 1][..|s|] == s;
      assert buffer[offset + |s|] == buffer[offset..offset + |s| + 1][|s|];
    }

    // update: step past the pending piece, whose length is found by looking for its zero.
    method Update(ghost s: seq<byte>)
      requires Valid() && Pending(s)
      modifies this`offset
      ensures Valid() && Done() == old(Done()) + s && offset == old(offset) + |s|
    {
      ghost var start, piece := offset, buffer[offset..offset + |s|];
      var at := offset;
      assert |s| > 0 ==> piece[0] == s[0];
      while buffer[at] != 0
        invariant start <= at <= start + |s|
        invariant at < start + |s| ==> buffer[at] == s[at - start]
        decreases start + |s| - at
      {
        at := at + 1;
        assert at < start + |s| ==> piece[at - start] == s[at - start];
      }
      assert buffer[..at] == buffer[..start] + buffer[start..at];
      offset := at;
    }

    // print_string_ptr
    method PrintString(str: seq<byte>)
      requires Valid() && CString(str) && offset + |StringText(str)| + 1 <= MAX_SIZE
      modifies this, buffer
      ensures Valid() && Done() == old(Done()) && Pending(StringText(str)) && offset == old(offset)
      ensures buffer == old(buffer) || fresh(buffer)
    {
      hide Escape, Special;
      var flag := false;
      for i := 0 to |str|
        invariant flag <==> exists k :: 0 <= k < i && Special(str[k])
      {
        flag := flag || Special(str[i]);
      }
      if !flag {
        EscapeNothing(str);
        PutPending([QUOTE] + str + [QUOTE], |str| + 3);
      } else {
        PrintEscaped(str);
      }
    }

    // print_string_ptr once a character is found that must be escaped
    method PrintEscaped(str: seq<byte>)
      requires Valid() && CString(str) && offset + |StringText(str)| + 1 <= MAX_SIZE
      modifies this, buffer
      ensures Valid() && Done() == old(Done()) && Pending(StringText(str)) && offset == old(offset)
      ensures buffer == old(buffer) || fresh(buffer)
    {
      hide Escape;
      EscapeCString(str);
      var len := EscapedLength(str);
      Ensure(len + 3);
      WriteEscaped(buffer, offset, str);
    }

    // print_number, for numbers that fit an int
    method PrintNumber(n: int)
      requires Valid() && INT_MIN <= n <= INT_MAX && offset + 21 <= MAX_SIZE
      modifies this, buffer
      ensures Valid() && Done() == old(Done()) && Pending(NumberText(n)) && offset == old(offset)
      ensures buffer == old(buffer) || fresh(buffer)
    {
      NumberFits(n);
      if n == 0 {
        PutPending([DIGIT_0], 2);
      } else {
        PutPending(NumberText(n), 21);
      }
    }

    // print_value.  What it printed is the text up to the offset and the pending piece behind it.
    method PrintValue(v: Json, depth: nat, fmt: bool) returns (ghost end: seq<byte>)
      requires Valid() && Printable(v) && offset + |Text(v, depth, fmt)| + SLACK <= MAX_SIZE
      modifies this, buffer
      ensures Valid() && Pending(end) && Done() + end == old(Done()) + Text(v, depth, fmt)
      ensures buffer == old(buffer) || fresh(buffer)
      decreases Size(v), 1
    {
      hide NumberText, StringText;
      end := Text(v, depth, fmt);
      match v
      case Null => PutPending(TEXT_NULL, 5);
      case False => PutPending(TEXT_FALSE, 6);
      case True => PutPending(TEXT_TRUE, 5);
      case Number(m, _) => PrintNumber(m);
      case String(str) => PrintString(str);
      case Array(items) => end := PrintArray(items, depth, fmt);
      case Object(members) => end := PrintObject(members, depth, fmt);
    }

    // print_array
    method PrintArray(items: Items, depth: nat, fmt: bool) returns (ghost end: seq<byte>)
      requires Valid() && PrintableItems(items) && offset + |Text(Array(items), depth, fmt)| + SLACK <= MAX_SIZE
      modifies this, buffer
      ensures Valid() && Pending(end) && Done() + end == old(Done()) + Text(Array(items), depth, fmt)
      ensures buffer == old(buffer) || fresh(buffer)
      decreases ItemsSize(items), 2
    {
      hide PrintableItems, ItemsText, ItemsSize;
      NoItemsText(depth, fmt);
      ghost var start, whole := Done(), ItemsText(items, depth, fmt);
      if items.NoItems? {
        end := [LBRACKET, RBRACKET];
        PutPending([LBRACKET, RBRACKET], 3);
        return;
      }
      Put([LBRACKET], 1);
      assert Done() + whole == start + ([LBRACKET] + whole);
      var child := items;
      while child.Item?
        invariant Valid() && PrintableItems(child) && ItemsSize(child) <= ItemsSize(items)
        invariant Done() + ItemsText(child, depth, fmt) == start + ([LBRACKET] + whole)
        invariant buffer == old(buffer) || fresh(buffer)
        decreases child
      {
        ItemsTail(child);
        PrintItem(child, depth, fmt);
        child := child.tail;
      }
      assert child == NoItems && Done() + [] == Done();
      end := [RBRACKET];
      PutPending([RBRACKET], 2);
      assert Done() + end == start + (([LBRACKET] + whole) + [RBRACKET]);
    }

    // One turn of print_array's loop: a value and the separator behind it.
    method PrintItem(items: Items, depth: nat, fmt: bool)
      requires Valid() && PrintableItems(items) && items.Item?
      requires offset + |ItemsText(items, depth, fmt)| + 1 + SLACK <= MAX_SIZE
      modifies this, buffer
      ensures Valid() && Done() + ItemsText(items.tail, depth, fmt) == old(Done()) + ItemsText(items, depth, fmt)
      ensures buffer == old(buffer) || fresh(buffer)
      decreases ItemsSize(items), 0
    {
      hide Text, ItemsText, CommaText;
      ItemsTail(items);
      ItemsUnfold(items, depth, fmt);
      NoItemsText(depth, fmt);
      ghost var start, rest := Done(), ItemsText(items.tail, depth, fmt);
      ghost var text := Text(items.head, depth + 1, fmt);
      ghost var end := PrintValue(items.head, depth + 1, fmt);
      Update(end);
      assert Done() == start + text;
      if items.tail.Item? {
        Separate(fmt);
        assert Done() + rest == start + (text + (CommaText(fmt) + rest));
      } else {
        assert Done() + rest == start + (text + []);
      }
    }

    // print_object
    method PrintObject(members: Members, depth: nat, fmt: bool) returns (ghost end: seq<byte>)
      requires Valid() && PrintableMembers(members) && offset + |Text(Object(members), depth, fmt)| + SLACK <= MAX_SIZE
      modifies this, buffer
      ensures Valid() && Pending(end) && Done() + end == old(Done()) + Text(Object(members), depth, fmt)
      ensures buffer == old(buffer) || fresh(buffer)
      decreases MembersSize(members), 2
    {
      hide PrintableMembers, MembersText, MembersSize, Text, Indent, Break;
      ObjectUnfold(members, depth, fmt);
      RoomForEnd(depth, fmt);
      if members.NoMembers? {
        end := PrintEmpty(depth, fmt);
        return;
      }
      ghost var start, whole := Done(), [LBRACE] + Break(fmt) + MembersText(members, depth + 1, fmt);
      PutClosed([LBRACE] + Break(fmt), (if fmt then 2 else 1) + 1);
      Regroup3(start, [LBRACE] + Break(fmt), MembersText(members, depth + 1, fmt));
      var child := members;
      while child.Member?
        invariant Valid() && PrintableMembers(child) && MembersSize(child) <= MembersSize(members)
        invariant Done() + MembersText(child, depth + 1, fmt) == start + whole
        invariant buffer == old(buffer) || fresh(buffer)
        decreases child
      {
        MembersTail(child);
        PrintMember(child, depth + 1, fmt);
        child := child.rest;
      }
      NoMembersText(depth + 1, fmt);
      assert child == NoMembers && Done() + [] == Done();
      end := Indent(depth, fmt) + [RBRACE];
      PutPending(Indent(depth, fmt) + [RBRACE], if fmt then depth + 2 else 2);
      Regroup(start, whole, Indent(depth, fmt), [RBRACE]);
    }

    // print_object of no members: the indentation is one tab short.
    method PrintEmpty(depth: nat, fmt: bool) returns (ghost end: seq<byte>)
      requires Valid() && offset + (if fmt then depth + 4 else 3) <= MAX_SIZE
      modifies this, buffer
      ensures Valid() && Done() == old(Done()) && Pending(end)
      ensures end == [LBRACE] + (Break(fmt) + Indent(depth - 1, fmt)) + [RBRACE]
      ensures buffer == old(buffer) || fresh(buffer)
    {
      end := [LBRACE] + (Break(fmt) + Indent(depth - 1, fmt)) + [RBRACE];
      PutPending([LBRACE] + (Break(fmt) + Indent(depth - 1, fmt)) + [RBRACE], if fmt then depth + 4 else 3);
    }

    // One turn of print_object's loop.
    method PrintMember(members: Members, depth: nat, fmt: bool)
      requires Valid() && PrintableMembers(members) && members.Member? && 0 < depth
      requires offset + |MembersText(members, depth, fmt)| + 1 + SLACK <= MAX_SIZE
      modifies this, buffer
      ensures Valid()
      ensures Done() + MembersText(members.rest, depth, fmt) == old(Done()) + MembersText(members, depth, fmt)
      ensures buffer == old(buffer) || fresh(buffer)
      decreases MembersSize(members), 0
    {
      hide Text, MembersText, MemberHead;
      MembersTail(members);
      MembersUnfold(members, depth, fmt);
      ghost var start, rest := Done(), MembersText(members.rest, depth, fmt);
      ghost var head, text := MemberHead(members.key, depth, fmt), Text(members.value, depth, fmt);
      PrintHead(members.key, depth, fmt);
      ghost var end := PrintValue(members.value, depth, fmt);
      Update(end);
      assert Done() == start + head + text;
      var len := (if fmt then 1 else 0) + (if members.rest.Member? then 1 else 0);
      PutClosed((if members.rest.Member? then [COMMA] else []) + Break(fmt), len + 1);
      Regroup5(start, head, text, MemberEnd(members, fmt), rest);
    }

    // A member's indentation, name and colon.
    method PrintHead(key: seq<byte>, depth: nat, fmt: bool)
      requires Valid() && CString(key) && 0 < depth && offset + |MemberHead(key, depth, fmt)| + 1 <= MAX_SIZE
      modifies this, buffer
      ensures Valid() && Done() == old(Done()) + MemberHead(key, depth, fmt)
      ensures buffer == old(buffer) || fresh(buffer)
    {
      hide StringText, Tabs;
      ghost var start, tabs := Done(), if fmt then Tabs(depth) else [];
      if fmt {
        Put(Tabs(depth), depth);
      }
      assert Done() == start + tabs;
      PrintString(key);
      Update(StringText(key));
      Put(ColonText(fmt), if fmt then 2 else 1);
      Regroup4(start, tabs, StringText(key), ColonText(fmt));
    }

    // The comma, with a space in formatted output.
    method Separate(fmt: bool)
      requires Valid() && offset + 3 <= MAX_SIZE
      modifies this, buffer
      ensures Valid() && Done() == old(Done()) + CommaText(fmt)
      ensures buffer == old(buffer) || fresh(buffer)
    {
      PutClosed(CommaText(fmt), (if fmt then 2 else 1) + 1);
    }
  }

  // cJSON_PrintBuffered: whatever size it starts with, the buffer handed back
  // starts with the text of cJSON_Print or cJSON_PrintUnformatted and a zero.
  method PrintBuffered(v: Json, prebuffer: nat, fmt: bool) returns (out: array<byte>)
    requires Printable(v) && 1 <= prebuffer && |Print(v, fmt)| + SLACK <= MAX_SIZE
    ensures fresh(out) && |Print(v, fmt)| < out.Length
    ensures out[..|Print(v, fmt)|] == Print(v, fmt) && out[|Print(v, fmt)|] == 0
  {
    hide Text;
    var p := new PrintBuffer(prebuffer);
    ghost var end := p.PrintValue(v, 0, fmt);
    out := p.buffer;
    assert p.Done() + end == [] + Print(v, fmt) == Print(v, fmt);
    assert out[..p.offset + |end|] == p.Done() + end;
  }
}
