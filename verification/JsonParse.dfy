// The recursive-descent parser of packages/cJSON-v1.0.2/cJSON.c, as functions
// from a text and a position to a value and the position behind it.
module JsonParse {
  import opened Bytes
  import opened JsonPrint

  datatype Parsed<+T> = Parsed(value: T, next: nat)

  // The character at a position; the text's terminating zero stands behind its end.
  function At(t: seq<byte>, i: nat): byte {
    if i < |t| then t[i] else 0
  }

  function Left(t: seq<byte>, i: nat): nat {
    if i < |t| then |t| - i else 0
  }

  predicate IsDigit(c: byte) {
    DIGIT_0 <= c <= DIGIT_0 + 9
  }

  // skip
  function Skip(t: seq<byte>, i: nat): (j: nat)
    ensures i <= j
    decreases Left(t, i)
  {
    if At(t, i) != 0 && At(t, i) <= SPACE then Skip(t, i + 1) else i
  }

  // strncmp(value, word, strlen(word)) == 0
  predicate StartsWith(t: seq<byte>, i: nat, word: seq<byte>) {
    i + |word| <= |t| && forall k :: i <= k < i + |word| ==> t[k] == word[k - i]
  }

  // --------------------------------------------------------------- numbers

  // Read digits onto n.
  function ReadDigits(t: seq<byte>, i: nat, n: nat): (r: Parsed<nat>)
    ensures i <= r.next
    decreases Left(t, i)
  {
    if IsDigit(At(t, i)) then ReadDigits(t, i + 1, n * 10 + (At(t, i) - DIGIT_0)) else Parsed(n, i)
  }

  function ParseExponent(t: seq<byte>, i: nat): (r: Parsed<int>)
    ensures i <= r.next
  {
    if At(t, i) == LOWER_E || At(t, i) == UPPER_E then
      var negative := At(t, i + 1) == MINUS;
      var digits := ReadDigits(t, if negative || At(t, i + 1) == PLUS then i + 2 else i + 1, 0);
      Parsed(if negative then 0 - digits.value else digits.value as int, digits.next)
    else Parsed(0, i)
  }

  // parse_number
  function ParseNumber(t: seq<byte>, i: nat): (r: Parsed<Json>)
    ensures i <= r.next
    ensures At(t, i) == MINUS || IsDigit(At(t, i)) ==> i < r.next
  {
    var negative := At(t, i) == MINUS;
    var i1 := if negative then i + 1 else i;
    var i2 := if At(t, i1) == DIGIT_0 then i1 + 1 else i1;
    var whole := if IsDigit(At(t, i2)) && At(t, i2) != DIGIT_0 then ReadDigits(t, i2, 0) else Parsed(0, i2);
    var fraction :=
      if At(t, whole.next) == DOT && IsDigit(At(t, whole.next + 1)) then ReadDigits(t, whole.next + 1, whole.value)
      else whole;
    var scale := if fraction.next == whole.next then 0 else fraction.next - (whole.next + 1);
    var exponent := ParseExponent(t, fraction.next);
    var mantissa := if negative then 0 - fraction.value else fraction.value as int;
    Parsed(Number(mantissa, exponent.value - scale), exponent.next)
  }

  // --------------------------------------------------------------- strings

  // parse_hex4; zero when one of the four is not a hex digit.
  function ParseHex4(t: seq<byte>, i: nat): (r: nat)
    ensures r < 0x1_0000
  {
    match (HexValue(At(t, i)), HexValue(At(t, i + 1)), HexValue(At(t, i + 2)), HexValue(At(t, i + 3)))
    case (Some(a), Some(b), Some(c), Some(d)) => ((a * 16 + b) * 16 + c) * 16 + d
    case _ => 0
  }

  // The UTF-8 bytes the parser stores for a code point.
  function Utf8(c: nat): (s: seq<byte>)
    requires c < 0x11_0000
  {
    if c < 0x80 then [c]
    else if c < 0x800 then [0xC0 + c / 0x40, 0x80 + c % 0x40]
    else if c < 0x1_0000 then [0xE0 + c / 0x1000, 0x80 + c / 0x40 % 0x40, 0x80 + c % 0x40]
    else [0xF0 + c / 0x4_0000, 0x80 + c / 0x1000 % 0x40, 0x80 + c / 0x40 % 0x40, 0x80 + c % 0x40]
  }

  // The "\u" case; i is the position of the u, and the result that of the last character used.
  function ParseUnicode(t: seq<byte>, i: nat): (r: Parsed<seq<byte>>)
    ensures i < r.next
  {
    var first := ParseHex4(t, i + 1);
    if 0xDC00 <= first <= 0xDFFF || first == 0 then Parsed([], i + 4)
    else if 0xD800 <= first <= 0xDBFF then
      if At(t, i + 5) != BACKSLASH || At(t, i + 6) != LOWER_U then Parsed([], i + 4)
      else
        var second := ParseHex4(t, i + 7);
        if second < 0xDC00 || second > 0xDFFF then Parsed([], i + 10)
        else Parsed(Utf8(0x1_0000 + first % 0x400 * 0x400 + second % 0x400), i + 10)
    else Parsed(Utf8(first), i + 4)
  }

  // One turn of the copying loop of parse_string: the bytes stored, and the next position.
  function ParseChar(t: seq<byte>, i: nat): (r: Parsed<seq<byte>>)
    ensures i < r.next
  {
    if At(t, i) != BACKSLASH then Parsed([At(t, i)], i + 1)
    else
      var c := At(t, i + 1);
      if c == LOWER_B then Parsed([0x08], i + 2)
      else if c == LOWER_F then Parsed([0x0C], i + 2)
      else if c == LOWER_N then Parsed([NEWLINE], i + 2)
      else if c == LOWER_R then Parsed([RETURN], i + 2)
      else if c == LOWER_T then Parsed([TAB], i + 2)
      else if c == LOWER_U then var u := ParseUnicode(t, i + 1); Parsed(u.value, u.next + 1)
      else Parsed([c], i + 2)
  }

  // The copying loop from position i.
  function ParseChars(t: seq<byte>, i: nat): (r: Parsed<seq<byte>>)
    ensures i <= r.next
    decreases Left(t, i)
  {
    if At(t, i) == QUOTE || At(t, i) == 0 then Parsed([], i)
    else
      var c := ParseChar(t, i);
      var rest := ParseChars(t, c.next);
      Parsed(c.value + rest.value, rest.next)
  }

  // parse_string; None is the null pointer.
  function ParseString(t: seq<byte>, i: nat): (r: Option<Parsed<seq<byte>>>)
    ensures r.Some? ==> i < r.value.next
  {
    if At(t, i) != QUOTE then None
    else
      var chars := ParseChars(t, i + 1);
      Some(Parsed(chars.value, if At(t, chars.next) == QUOTE then chars.next + 1 else chars.next))
  }

  // ----------------------------------------------------------------- values

  // parse_value
  function ParseValue(t: seq<byte>, i: nat): (r: Option<Parsed<Json>>)
    ensures r.Some? ==> i < r.value.next
    decreases Left(t, i), 1
  {
    if StartsWith(t, i, TEXT_NULL) then Some(Parsed(Null, i + 4))
    else if StartsWith(t, i, TEXT_FALSE) then Some(Parsed(False, i + 5))
    else if StartsWith(t, i, TEXT_TRUE) then Some(Parsed(True, i + 4))
    else
      var c := At(t, i);
      if c == QUOTE then
        match ParseString(t, i)
        case None => None
        case Some(s) => Some(Parsed(String(s.value), s.next))
      else if c == MINUS || IsDigit(c) then Some(ParseNumber(t, i))
      else if c == LBRACKET then ParseArray(t, i)
      else if c == LBRACE then ParseObject(t, i)
      else None
  }

  // parse_array, behind its opening bracket
  function ParseArray(t: seq<byte>, i: nat): (r: Option<Parsed<Json>>)
    requires At(t, i) == LBRACKET
    ensures r.Some? ==> i < r.value.next
    decreases Left(t, i), 0
  {
    var j := Skip(t, i + 1);
    if At(t, j) == RBRACKET then Some(Parsed(Array(NoItems), j + 1))
    else
      match ParseItems(t, j)
      case None => None
      case Some(items) =>
        if At(t, items.next) == RBRACKET then Some(Parsed(Array(items.value), items.next + 1)) else None
  }

  // The value at i and, while commas follow, the values behind them; ends behind white space.
  function ParseItems(t: seq<byte>, i: nat): (r: Option<Parsed<Items>>)
    ensures r.Some? ==> i < r.value.next
    decreases Left(t, i), 2
  {
    match ParseValue(t, Skip(t, i))
    case None => None
    case Some(v) =>
      var j := Skip(t, v.next);
      if At(t, j) != COMMA then Some(Parsed(Item(v.value, NoItems), j))
      else
        match ParseItems(t, j + 1)
        case None => None
        case Some(tail) => Some(Parsed(Item(v.value, tail.value), tail.next))
  }

  // parse_object, behind its opening brace
  function ParseObject(t: seq<byte>, i: nat): (r: Option<Parsed<Json>>)
    requires At(t, i) == LBRACE
    ensures r.Some? ==> i < r.value.next
    decreases Left(t, i), 0
  {
    var j := Skip(t, i + 1);
    if At(t, j) == RBRACE then Some(Parsed(Object(NoMembers), j + 1))
    else
      match ParseMembers(t, j)
      case None => None
      case Some(members) =>
        if At(t, members.next) == RBRACE then Some(Parsed(Object(members.value), members.next + 1)) else None
  }

  function ParseMembers(t: seq<byte>, i: nat): (r: Option<Parsed<Members>>)
    ensures r.Some? ==> i < r.value.next
    decreases Left(t, i), 2
  {
    match ParseString(t, Skip(t, i))
    case None => None
    case Some(key) =>
      var colon := Skip(t, key.next);
      if At(t, colon) != COLON then None
      else
        match ParseValue(t, Skip(t, colon + 1))
        case None => None
        case Some(v) =>
          var j := Skip(t, v.next);
          if At(t, j) != COMMA then Some(Parsed(Member(key.value, v.value, NoMembers), j))
          else
            match ParseMembers(t, j + 1)
            case None => None
            case Some(rest) => Some(Parsed(Member(key.value, v.value, rest.value), rest.next))
  }

  // cJSON_Parse: leading white space is skipped, what follows the value is not looked at.
  function Parse(t: seq<byte>): (r: Option<Parsed<Json>>) {
    ParseValue(t, Skip(t, 0))
  }

  // cJSON_ParseWithOpts: on request nothing but white space may follow the value.
  function ParseWithOpts(t: seq<byte>, whole: bool): (r: Option<Parsed<Json>>) {
    match Parse(t)
    case None => None
    case Some(v) =>
      if !whole then Some(v)
      else if At(t, Skip(t, v.next)) != 0 then None
      else Some(Parsed(v.value, Skip(t, v.next)))
  }
}
