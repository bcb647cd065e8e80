// The parser of packages/cJSON-v1.0.2/cJSON.c as it runs: its loops do what the
// functions of JsonParse say, and the buffer it allocates for a string before
// decoding holds every decoded byte.
module JsonReader {
  import opened Bytes
  import opened JsonPrint
  import opened JsonParse

  // skip
  method SkipOver(t: seq<byte>, i: nat) returns (j: nat)
    ensures j == Skip(t, i)
  {
    j := i;
    while At(t, j) != 0 && At(t, j) <= SPACE
      invariant i <= j && Skip(t, j) == Skip(t, i)
      decreases Left(t, j)
    {
      j := j + 1;
    }
  }

  // --------------------------------------------------------------- numbers

  method TakeDigits(t: seq<byte>, i: nat, n: nat) returns (m: nat, j: nat)
    ensures ReadDigits(t, i, n) == Parsed(m, j)
  {
    m, j := n, i;
    while IsDigit(At(t, j))
      invariant i <= j && ReadDigits(t, j, m) == ReadDigits(t, i, n)
      decreases Left(t, j)
    {
      m := m * 10 + (At(t, j) - DIGIT_0);
      j := j + 1;
    }
  }

  // The exponent part
  method TakeExponent(t: seq<byte>, i: nat) returns (subscale: int, num: nat)
    ensures ParseExponent(t, i) == Parsed(subscale, num)
  {
    subscale, num := 0, i;
    if At(t, num) == LOWER_E || At(t, num) == UPPER_E {
      var negative := false;
      num := num + 1;
      if At(t, num) == PLUS {
        num := num + 1;
      } else if At(t, num) == MINUS {
        negative, num := true, num + 1;
      }
      var digits;
      digits, num := TakeDigits(t, num, 0);
      subscale := if negative then 0 - digits as int else digits as int;
    }
  }

  // parse_number
  method TakeNumber(t: seq<byte>, i: nat) returns (v: Json, next: nat)
    ensures ParseNumber(t, i) == Parsed(v, next)
  {
    hide ReadDigits, ParseExponent;
    var n: nat, scale: int := 0, 0;
    var negative := At(t, i) == MINUS;
    var num := i;
    if negative {
      num := num + 1;
    }
    if At(t, num) == DIGIT_0 {
      num := num + 1;
    }
    if DIGIT_0 + 1 <= At(t, num) <= DIGIT_0 + 9 {
      n, num := TakeDigits(t, num, n);
    }
    if At(t, num) == DOT && IsDigit(At(t, num + 1)) {
      var from := num + 1;
      n, num := TakeDigits(t, from, n);
      scale := from as int - num as int;
    }
    var subscale;
    subscale, num := TakeExponent(t, num);
    return Number(if negative then 0 - n else n, subscale + scale), num;
  }

  // --------------------------------------------------------------- strings

  // The first loop of parse_string: an escaped character counts once.
  function Count(t: seq<byte>, p: nat): nat
    decreases Left(t, p)
  {
    if At(t, p) == QUOTE || At(t, p) == 0 then 0
    else 1 + Count(t, if At(t, p) == BACKSLASH then p + 2 else p + 1)
  }

  // Where it stops
  function CountEnd(t: seq<byte>, p: nat): (e: nat)
    ensures p <= e
    decreases Left(t, p)
  {
    if At(t, p) == QUOTE || At(t, p) == 0 then p
    else CountEnd(t, if At(t, p) == BACKSLASH then p + 2 else p + 1)
  }

  // For the string from p on, neither loop leaves the text and the buffer holds what is decoded.
  predicate Fits(t: seq<byte>, p: nat) {
    CountEnd(t, p) <= |t| && ParseChars(t, p).next <= |t| && |ParseChars(t, p).value| <= Count(t, p)
  }

  predicate Ordinary(c: byte) { c != QUOTE && c != BACKSLASH && c != 0 }

  // Four characters that the counting loop counts one by one
  predicate FourCounted(t: seq<byte>, i: nat) {
    Ordinary(At(t, i)) && Ordinary(At(t, i + 1)) && Ordinary(At(t, i + 2)) && Ordinary(At(t, i + 3))
  }

  // From p to the end of the string no escape is cut short, by another one or by the end.
  predicate WholeEscapes(t: seq<byte>, p: nat)
    decreases Left(t, p)
  {
    At(t, p) == QUOTE || At(t, p) == 0 ||
    ((At(t, p) == BACKSLASH ==>
        At(t, p + 1) != 0 &&
        (At(t, p + 1) == LOWER_U ==>
           FourCounted(t, p + 2) &&
           (ParseUnicode(t, p + 1).next > p + 5 ==> FourCounted(t, p + 8)))) &&
     WholeEscapes(t, ParseChar(t, p).next))
  }

  lemma CountOne(t: seq<byte>, i: nat)
    requires At(t, i) != QUOTE && At(t, i) != 0
    ensures var next := if At(t, i) == BACKSLASH then i + 2 else i + 1;
            Count(t, i) == 1 + Count(t, next) && CountEnd(t, i) == CountEnd(t, next)
  {}

  lemma CountFour(t: seq<byte>, i: nat)
    requires FourCounted(t, i)
    ensures Count(t, i) == 4 + Count(t, i + 4) && CountEnd(t, i) == CountEnd(t, i + 4) && i + 4 <= |t|
  {
    hide Count, CountEnd;
    CountOne(t, i);
    CountOne(t, i + 1);
    CountOne(t, i + 2);
    CountOne(t, i + 3);
  }

  // What one turn of the copying loop stores is never more than what was counted for it,
  // and the counting loop comes by where the turn ends.
  lemma CharFits(t: seq<byte>, p: nat)
    requires WholeEscapes(t, p) && At(t, p) != QUOTE && At(t, p) != 0
    ensures var c := ParseChar(t, p);
            |c.value| + Count(t, c.next) <= Count(t, p) && CountEnd(t, p) == CountEnd(t, c.next) && c.next <= |t|
  {
    hide WholeEscapes, Utf8, FourCounted, Count, CountEnd, ParseUnicode;
    WholeStep(t, p);
    CountOne(t, p);
    if At(t, p) == BACKSLASH && At(t, p + 1) == LOWER_U {
      CountFour(t, p + 2);
      UnicodeFits(t, p + 1);
      if ParseUnicode(t, p + 1).next > p + 5 {
        CountOne(t, p + 6);
        CountFour(t, p + 8);
      }
    }
  }

  lemma WholeStep(t: seq<byte>, p: nat)
    requires WholeEscapes(t, p) && At(t, p) != QUOTE && At(t, p) != 0
    ensures At(t, p) == BACKSLASH ==> At(t, p + 1) != 0
    ensures At(t, p) == BACKSLASH && At(t, p + 1) == LOWER_U ==>
              FourCounted(t, p + 2) && (ParseUnicode(t, p + 1).next > p + 5 ==> FourCounted(t, p + 8))
    ensures WholeEscapes(t, ParseChar(t, p).next)
  {
    hide ParseUnicode, ParseChar, FourCounted;
  }

  lemma UnicodeFits(t: seq<byte>, i: nat)
    ensures var u := ParseUnicode(t, i);
            && |u.value| <= 4 && (u.next == i + 4 || u.next == i + 10)
            && (u.next == i + 4 ==> |u.value| <= 3) && (u.next == i + 10 ==> At(t, i + 5) == BACKSLASH)
  {
    hide ParseHex4;
  }

  // Without such escapes both loops stop at the same quote, or at the end.
  lemma {:induction false} StringFits(t: seq<byte>, p: nat)
    requires p <= |t| && WholeEscapes(t, p)
    ensures Fits(t, p) && CountEnd(t, p) == ParseChars(t, p).next
    decreases Left(t, p)
  {
    hide ParseChar, WholeEscapes;
    if At(t, p) != QUOTE && At(t, p) != 0 {
      CharFits(t, p);
      WholeStep(t, p);
      StringFits(t, ParseChar(t, p).next);
    }
  }

  method CountCharacters(t: seq<byte>, i: nat) returns (len: nat)
    requires CountEnd(t, i) <= |t|
    ensures len == Count(t, i)
  {
    len := 0;
    var ptr := i;
    while At(t, ptr) != QUOTE && At(t, ptr) != 0
      invariant i <= ptr && len + Count(t, ptr) == Count(t, i) && CountEnd(t, ptr) == CountEnd(t, i)
      invariant ptr <= |t|
      decreases Left(t, ptr)
    {
      len := len + 1;
      ptr := if At(t, ptr) == BACKSLASH then ptr + 2 else ptr + 1;
    }
  }

  // The four bytes of a code point, stored from the last to the first.
  method PutUtf8(out: array<byte>, at: nat, uc: nat) returns (next: nat)
    requires uc < 0x11_0000 && at + |Utf8(uc)| <= out.Length
    modifies out
    ensures next == at + |Utf8(uc)| && out[..next] == old(out[..at]) + Utf8(uc)
  {
    Shifted(uc);
    var len := if uc < 0x80 then 1 else if uc < 0x800 then 2 else if uc < 0x1_0000 then 3 else 4;
    var c, ptr := uc, at + len;
    next := ptr;
    if len == 4 {
      ptr := ptr - 1;
      out[ptr], c := 0x80 + c % 0x40, c / 0x40;
    }
    if len >= 3 {
      ptr := ptr - 1;
      out[ptr], c := 0x80 + c % 0x40, c / 0x40;
    }
    if len >= 2 {
      ptr := ptr - 1;
      out[ptr], c := 0x80 + c % 0x40, c / 0x40;
    }
    ptr := ptr - 1;
    out[ptr] := (if len == 1 then 0 else if len == 2 then 0xC0 else if len == 3 then 0xE0 else 0xF0) + c;
  }

  lemma Shifted(uc: nat)
    ensures uc / 0x40 / 0x40 == uc / 0x1000 && uc / 0x1000 / 0x40 == uc / 0x4_0000
  {}

  // The "\u" case of the copying loop
  method PutUnicode(t: seq<byte>, i: nat, out: array<byte>, at: nat) returns (ptr: nat, next: nat)
    requires at + |ParseUnicode(t, i).value| <= out.Length
    modifies out
    ensures ptr == ParseUnicode(t, i).next && next == at + |ParseUnicode(t, i).value|
    ensures out[..next] == old(out[..at]) + ParseUnicode(t, i).value
  {
    hide ParseHex4, Utf8;
    ptr, next := i, at;
    var uc := ParseHex4(t, ptr + 1);
    ptr := ptr + 4;
    if 0xDC00 <= uc <= 0xDFFF || uc == 0 {
      return;
    }
    if 0xD800 <= uc <= 0xDBFF {
      if At(t, ptr + 1) != BACKSLASH || At(t, ptr + 2) != LOWER_U {
        return;
      }
      var uc2 := ParseHex4(t, ptr + 3);
      ptr := ptr + 6;
      if uc2 < 0xDC00 || uc2 > 0xDFFF {
        return;
      }
      uc := 0x1_0000 + uc % 0x400 * 0x400 + uc2 % 0x400;
    }
    next := PutUtf8(out, at, uc);
  }

  // One turn of the copying loop
  method PutChar(t: seq<byte>, i: nat, out: array<byte>, at: nat) returns (ptr: nat, next: nat)
    requires at + |ParseChar(t, i).value| <= out.Length
    modifies out
    ensures ptr == ParseChar(t, i).next && next == at + |ParseChar(t, i).value|
    ensures out[..next] == old(out[..at]) + ParseChar(t, i).value
  {
    hide ParseUnicode;
    ptr := i;
    if At(t, ptr) != BACKSLASH {
      out[at] := At(t, ptr);
      return ptr + 1, at + 1;
    }
    ptr := ptr + 1;
    var c := At(t, ptr);
    if c == LOWER_U {
      ptr, next := PutUnicode(t, ptr, out, at);
    } else {
      out[at] := if c == LOWER_B then 0x08 else if c == LOWER_F then 0x0C else if c == LOWER_N then NEWLINE
                 else if c == LOWER_R then RETURN else if c == LOWER_T then TAB else c;
      next := at + 1;
    }
    ptr := ptr + 1;
  }

  // parse_string
  method TakeString(t: seq<byte>, i: nat) returns (s: Option<Parsed<seq<byte>>>)
    requires At(t, i) == QUOTE ==> Fits(t, i + 1)
    ensures s == ParseString(t, i)
  {
    hide Count, CountEnd, ParseChar, ParseChars;
    if At(t, i) != QUOTE {
      return None;
    }
    var len := CountCharacters(t, i + 1);
    var out := new byte[len + 1];
    var ptr, ptr2: nat := i + 1, 0;
    CharsStep(t, ptr);
    while At(t, ptr) != QUOTE && At(t, ptr) != 0
      invariant i < ptr <= |t| && ptr2 + |ParseChars(t, ptr).value| <= len
      invariant ParseChars(t, i + 1) == Parsed(out[..ptr2] + ParseChars(t, ptr).value, ParseChars(t, ptr).next)
      decreases Left(t, ptr)
    {
      ghost var c, done := ParseChar(t, ptr), out[..ptr2];
      CharsStep(t, ptr);
      ptr, ptr2 := PutChar(t, ptr, out, ptr2);
      assert done + (c.value + ParseChars(t, ptr).value) == done + c.value + ParseChars(t, ptr).value;
    }
    CharsStep(t, ptr);
    out[ptr2] := 0;
    assert out[..ptr2] + [] == out[..ptr2];
    if At(t, ptr) == QUOTE {
      ptr := ptr + 1;
    }
    return Some(Parsed(out[..ptr2], ptr));
  }

  lemma CharsStep(t: seq<byte>, i: nat)
    ensures ParseChars(t, i) ==
            if At(t, i) == QUOTE || At(t, i) == 0 then Parsed([], i)
            else var c := ParseChar(t, i); var rest := ParseChars(t, c.next); Parsed(c.value + rest.value, rest.next)
    ensures [] + ParseChars(t, i).value == ParseChars(t, i).value
  {
    hide ParseChar;
  }

  // ----------------------------------------------------------------- values

  datatype Child = Child(key: seq<byte>, value: Json)

  // A name, a colon and a value; None where one is missing.
  function ParseChild(t: seq<byte>, i: nat): (r: Option<Parsed<Child>>)
    ensures r.Some? ==> i < r.value.next
  {
    match ParseString(t, i)
    case None => None
    case Some(key) =>
      var colon := Skip(t, key.next);
      if At(t, colon) != COLON then None
      else
        match ParseValue(t, Skip(t, colon + 1))
        case None => None
        case Some(v) => Some(Parsed(Child(key.value, v.value), v.next))
  }

  // The parser reads every string it meets within the text and into its buffer.
  predicate Safe(t: seq<byte>, i: nat)
    decreases Left(t, i), 1
  {
    var j := Skip(t, i + 1);
    && (At(t, i) == QUOTE ==> Fits(t, i + 1))
    && (At(t, i) == LBRACKET && At(t, j) != RBRACKET ==> SafeItems(t, j))
    && (At(t, i) == LBRACE && At(t, j) != RBRACE ==> SafeMembers(t, j))
  }

  predicate SafeItems(t: seq<byte>, i: nat)
    decreases Left(t, i), 2
  {
    var v := ParseValue(t, Skip(t, i));
    && Safe(t, Skip(t, i))
    && (v.Some? ==> var j := Skip(t, v.value.next); At(t, j) == COMMA ==> SafeItems(t, j + 1))
  }

  predicate SafeMembers(t: seq<byte>, i: nat)
    decreases Left(t, i), 3
  {
    var c := ParseChild(t, Skip(t, i));
    && SafeChild(t, Skip(t, i))
    && (c.Some? ==> var j := Skip(t, c.value.next); At(t, j) == COMMA ==> SafeMembers(t, j + 1))
  }

  predicate SafeChild(t: seq<byte>, i: nat)
    decreases Left(t, i), 2
  {
    var key := ParseString(t, i);
    && (At(t, i) == QUOTE ==> Fits(t, i + 1))
    && (key.Some? ==> var colon := Skip(t, key.value.next); At(t, colon) == COLON ==> Safe(t, Skip(t, colon + 1)))
  }

  lemma SafeItemsStep(t: seq<byte>, i: nat)
    requires SafeItems(t, i)
    ensures Safe(t, Skip(t, i))
    ensures var v := ParseValue(t, Skip(t, i));
            v.Some? ==> var j := Skip(t, v.value.next); At(t, j) == COMMA ==> SafeItems(t, j + 1)
  {
    hide ParseValue, Safe;
  }

  lemma SafeMembersStep(t: seq<byte>, i: nat)
    requires SafeMembers(t, i)
    ensures SafeChild(t, Skip(t, i))
    ensures var c := ParseChild(t, Skip(t, i));
            c.Some? ==> var j := Skip(t, c.value.next); At(t, j) == COMMA ==> SafeMembers(t, j + 1)
  {
    hide ParseChild, SafeChild;
  }

  // parse_value
  method TakeValue(t: seq<byte>, i: nat) returns (v: Option<Parsed<Json>>)
    requires Safe(t, i)
    ensures v == ParseValue(t, i)
    decreases Left(t, i), 1
  {
    hide Fits, StartsWith, ParseNumber, ParseString;
    if StartsWith(t, i, TEXT_NULL) {
      return Some(Parsed(Null, i + 4));
    }
    if StartsWith(t, i, TEXT_FALSE) {
      return Some(Parsed(False, i + 5));
    }
    if StartsWith(t, i, TEXT_TRUE) {
      return Some(Parsed(True, i + 4));
    }
    var c := At(t, i);
    if c == QUOTE {
      var s := TakeString(t, i);
      v := if s.None? then None else Some(Parsed(String(s.value.value), s.value.next));
    } else if c == MINUS || IsDigit(c) {
      var n, next := TakeNumber(t, i);
      v := Some(Parsed(n, next));
    } else if c == LBRACKET {
      v := TakeArray(t, i);
    } else if c == LBRACE {
      v := TakeObject(t, i);
    } else {
      v := None;
    }
  }

  // Children linked in front of those that follow.
  function Linked(children: seq<Json>, tail: Items): Items {
    if children == [] then tail
    else Linked(children[..|children| - 1], Item(children[|children| - 1], tail))
  }

  function Onto(children: seq<Json>, rest: Option<Parsed<Items>>): Option<Parsed<Items>> {
    if rest.None? then None else Some(Parsed(Linked(children, rest.value.value), rest.value.next))
  }

  // What follows a child and white space
  function MoreItems(t: seq<byte>, i: nat): Option<Parsed<Items>> {
    if At(t, i) != COMMA then Some(Parsed(NoItems, i)) else ParseItems(t, i + 1)
  }

  lemma ItemsStep(t: seq<byte>, i: nat, children: seq<Json>)
    ensures var v := ParseValue(t, Skip(t, i));
            Onto(children, ParseItems(t, i)) ==
            if v.None? then None else Onto(children + [v.value.value], MoreItems(t, Skip(t, v.value.next)))
  {
    hide ParseValue, Skip, At;
    var v := ParseValue(t, Skip(t, i));
    if v.Some? {
      assert (children + [v.value.value])[..|children|] == children;
    }
  }

  // parse_array
  method TakeArray(t: seq<byte>, i: nat) returns (v: Option<Parsed<Json>>)
    requires At(t, i) == LBRACKET && Safe(t, i)
    ensures v == ParseArray(t, i)
    decreases Left(t, i), 0
  {
    hide ParseValue, ParseItems, Skip, SafeItems, Linked;
    var value := SkipOver(t, i + 1);
    if At(t, value) == RBRACKET {
      return Some(Parsed(Array(NoItems), value + 1));
    }
    ghost var start := value;
    ghost var whole := ParseItems(t, start);
    var children: seq<Json> := [];
    NoneLinked(whole);
    var more := true;
    var from := value;
    while more
      invariant more ==> SafeItems(t, from)
      invariant i < from && whole == Onto(children, if more then ParseItems(t, from) else Some(Parsed(NoItems, from)))
      decreases Left(t, from), more
    {
      ItemsStep(t, from, children);
      SafeItemsStep(t, from);
      var at := SkipOver(t, from);
      var child := TakeValue(t, at);
      if child.None? {
        return None;
      }
      children := children + [child.value.value];
      value := SkipOver(t, child.value.next);
      more := At(t, value) == COMMA;
      from := if more then value + 1 else value;
    }
    v := if At(t, from) == RBRACKET then Some(Parsed(Array(Linked(children, NoItems)), from + 1)) else None;
  }

  lemma NoneLinked(rest: Option<Parsed<Items>>)
    ensures Onto([], rest) == rest
  {}

  function LinkedMembers(children: seq<Child>, tail: Members): Members {
    if children == [] then tail
    else
      var last := children[|children| - 1];
      LinkedMembers(children[..|children| - 1], Member(last.key, last.value, tail))
  }

  function OntoMembers(children: seq<Child>, rest: Option<Parsed<Members>>): Option<Parsed<Members>> {
    if rest.None? then None else Some(Parsed(LinkedMembers(children, rest.value.value), rest.value.next))
  }

  function MoreMembers(t: seq<byte>, i: nat): Option<Parsed<Members>> {
    if At(t, i) != COMMA then Some(Parsed(NoMembers, i)) else ParseMembers(t, i + 1)
  }

  lemma MembersStep(t: seq<byte>, i: nat, children: seq<Child>)
    ensures var c := ParseChild(t, Skip(t, i));
            OntoMembers(children, ParseMembers(t, i)) ==
            if c.None? then None else OntoMembers(children + [c.value.value], MoreMembers(t, Skip(t, c.value.next)))
  {
    hide ParseValue, ParseString, Skip, At;
    var c := ParseChild(t, Skip(t, i));
    if c.Some? {
      assert (children + [c.value.value])[..|children|] == children;
    }
  }

  method TakeChild(t: seq<byte>, i: nat) returns (c: Option<Parsed<Child>>)
    requires SafeChild(t, i)
    ensures c == ParseChild(t, i)
    decreases Left(t, i), 2
  {
    hide ParseString, ParseValue, Skip, Fits;
    var key := TakeString(t, i);
    if key.None? {
      return None;
    }
    var colon := SkipOver(t, key.value.next);
    if At(t, colon) != COLON {
      return None;
    }
    var at := SkipOver(t, colon + 1);
    var v := TakeValue(t, at);
    c := if v.None? then None else Some(Parsed(Child(key.value.value, v.value.value), v.value.next));
  }

  // parse_object
  method TakeObject(t: seq<byte>, i: nat) returns (v: Option<Parsed<Json>>)
    requires At(t, i) == LBRACE && Safe(t, i)
    ensures v == ParseObject(t, i)
    decreases Left(t, i), 0
  {
    hide ParseChild, ParseMembers, Skip, SafeMembers, SafeChild, LinkedMembers;
    var value := SkipOver(t, i + 1);
    if At(t, value) == RBRACE {
      return Some(Parsed(Object(NoMembers), value + 1));
    }
    ghost var whole := ParseMembers(t, value);
    var children: seq<Child> := [];
    NoneLinkedMembers(whole);
    var more := true;
    var from := value;
    while more
      invariant i < from && (more ==> SafeMembers(t, from))
      invariant whole == OntoMembers(children, if more then ParseMembers(t, from) else Some(Parsed(NoMembers, from)))
      decreases Left(t, from), more
    {
      MembersStep(t, from, children);
      SafeMembersStep(t, from);
      var at := SkipOver(t, from);
      var child := TakeChild(t, at);
      if child.None? {
        return None;
      }
      children := children + [child.value.value];
      value := SkipOver(t, child.value.next);
      more := At(t, value) == COMMA;
      from := if more then value + 1 else value;
    }
    v := if At(t, from) == RBRACE then Some(Parsed(Object(LinkedMembers(children, NoMembers)), from + 1)) else None;
  }

  lemma NoneLinkedMembers(rest: Option<Parsed<Members>>)
    ensures OntoMembers([], rest) == rest
  {}

  // Before any place: no string that may start there has an escape that is cut short.
  ghost predicate WholeStrings(t: seq<byte>) {
    forall i: nat :: At(t, i) == QUOTE ==> WholeEscapes(t, i + 1)
  }

  lemma {:induction false} WholeIsSafe(t: seq<byte>, i: nat)
    requires WholeStrings(t)
    ensures Safe(t, i)
    decreases Left(t, i), 1
  {
    hide WholeEscapes, Fits, SafeItems, SafeMembers;
    if At(t, i) == QUOTE {
      StringFits(t, i + 1);
    } else if At(t, i) == LBRACKET {
      WholeItemsSafe(t, Skip(t, i + 1));
    } else if At(t, i) == LBRACE {
      WholeMembersSafe(t, Skip(t, i + 1));
    }
  }

  lemma {:induction false} WholeItemsSafe(t: seq<byte>, i: nat)
    requires WholeStrings(t)
    ensures SafeItems(t, i)
    decreases Left(t, i), 2
  {
    hide ParseValue, Safe, WholeStrings;
    WholeIsSafe(t, Skip(t, i));
    var v := ParseValue(t, Skip(t, i));
    if v.Some? && At(t, Skip(t, v.value.next)) == COMMA {
      WholeItemsSafe(t, Skip(t, v.value.next) + 1);
    }
  }

  lemma {:induction false} WholeMembersSafe(t: seq<byte>, i: nat)
    requires WholeStrings(t)
    ensures SafeMembers(t, i)
    decreases Left(t, i), 3
  {
    hide ParseChild, SafeChild, WholeStrings;
    WholeChildSafe(t, Skip(t, i));
    var c := ParseChild(t, Skip(t, i));
    if c.Some? && At(t, Skip(t, c.value.next)) == COMMA {
      WholeMembersSafe(t, Skip(t, c.value.next) + 1);
    }
  }

  lemma {:induction false} WholeChildSafe(t: seq<byte>, i: nat)
    requires WholeStrings(t)
    ensures SafeChild(t, i)
    decreases Left(t, i), 2
  {
    hide Safe, WholeEscapes, Fits;
    if At(t, i) == QUOTE {
      StringFits(t, i + 1);
      var colon := Skip(t, ParseString(t, i).value.next);
      if At(t, colon) == COLON {
        WholeIsSafe(t, Skip(t, colon + 1));
      }
    }
  }

  // cJSON_ParseWithOpts: every string that is met must fit, nothing else is asked of the text.
  method TakeWithOpts(t: seq<byte>, whole: bool) returns (v: Option<Parsed<Json>>)
    requires Safe(t, Skip(t, 0))
    ensures v == ParseWithOpts(t, whole)
  {
    hide ParseValue, Skip, Safe;
    var i := SkipOver(t, 0);
    v := TakeValue(t, i);
    if v.Some? && whole {
      var end := SkipOver(t, v.value.next);
      v := if At(t, end) != 0 then None else Some(Parsed(v.value.value, end));
    }
  }

  // cJSON_Parse
  method TakeAll(t: seq<byte>) returns (v: Option<Parsed<Json>>)
    requires Safe(t, Skip(t, 0))
    ensures v == Parse(t)
  {
    hide Parse, Safe;
    v := TakeWithOpts(t, false);
  }
}
