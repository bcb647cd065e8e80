// The grammar of RFC 8259 as syntax trees, and their texts: on every such text, whatever its
// white space, its escapes and the form of its numbers, the parser of
// packages/cJSON-v1.0.2/cJSON.c stays in bounds and yields the value that is meant.  Left out
// is only the escape of a high surrogate without its low one.
module JsonGrammar {
  import opened Bytes
  import opened JsonPrint
  import opened JsonParse
  import opened JsonRoundTrip
  import opened JsonReader
  import opened JsonUnicode
  import opened JsonNumbers
  import JsonMinifyPieces

  // ------------------------------------------------------------- the grammar

  // Section 7: a character as it is, a short escape, or a scalar value in \u escapes; and what
  // cannot be a character of a C string, NUL or a low surrogate with no high one before it
  datatype Glyph =
    | Plain(c: byte)
    | Short(c: byte)
    | Coded(scalar: nat, text: seq<byte>)
    | Dropped(unit: nat, text: seq<byte>)

  // Sections 3 to 5, with the white space that may stand around each value
  datatype Doc =
    | NullDoc
    | FalseDoc
    | TrueDoc
    | NumberDoc(w: Written)
    | StringDoc(glyphs: seq<Glyph>)
    | EmptyArray(ws: seq<byte>)
    | FilledArray(elements: Elements)
    | EmptyObject(ws: seq<byte>)
    | FilledObject(pairs: Pairs)

  datatype Elements =
    | LastElement(before: seq<byte>, value: Doc, after: seq<byte>)
    | Element(before: seq<byte>, value: Doc, after: seq<byte>, rest: Elements)

  datatype Pairs =
    | LastPair(before: seq<byte>, key: seq<Glyph>, behindKey: seq<byte>, ahead: seq<byte>, value: Doc, after: seq<byte>)
    | Pair(before: seq<byte>, key: seq<Glyph>, behindKey: seq<byte>, ahead: seq<byte>, value: Doc, after: seq<byte>,
           rest: Pairs)

  predicate Blank(ws: seq<byte>) {
    forall k :: 0 <= k < |ws| ==> JsonMinifyPieces.WhiteSpace(ws[k])
  }

  predicate GoodGlyph(g: Glyph) {
    match g
    case Plain(c) => c >= 0x20 && c != '"' as int && c != '\\' as int
    case Short(c) =>
      || c == '"' as int || c == '\\' as int || c == '/' as int || c == 'b' as int
      || c == 'f' as int || c == 'n' as int || c == 'r' as int || c == 't' as int
    case Coded(scalar, text) => IsScalar(scalar) && scalar != 0 && |text| == Width(scalar) && Spells(text, 0, scalar)
    case Dropped(unit, text) => (unit == 0 || 0xDC00 <= unit <= 0xDFFF) && |text| == 6 && Unit(text, 0, unit)
  }

  predicate GoodGlyphs(s: seq<Glyph>) {
    forall k :: 0 <= k < |s| ==> GoodGlyph(s[k])
  }

  predicate Good(d: Doc) {
    match d
    case NumberDoc(w) => WellWritten(w)
    case StringDoc(glyphs) => GoodGlyphs(glyphs)
    case EmptyArray(ws) => Blank(ws)
    case FilledArray(elements) => GoodElements(elements)
    case EmptyObject(ws) => Blank(ws)
    case FilledObject(pairs) => GoodPairs(pairs)
    case _ => true
  }

  predicate GoodElements(e: Elements) {
    Blank(e.before) && Good(e.value) && Blank(e.after) && (e.Element? ==> GoodElements(e.rest))
  }

  predicate GoodPairs(p: Pairs) {
    && Blank(p.before) && GoodGlyphs(p.key) && Blank(p.behindKey) && Blank(p.ahead) && Good(p.value) && Blank(p.after)
    && (p.Pair? ==> GoodPairs(p.rest))
  }

  // ---------------------------------------------------------------- its text

  function GlyphText(g: Glyph): seq<byte> {
    match g
    case Plain(c) => [c]
    case Short(c) => ['\\' as int, c]
    case Coded(_, text) => text
    case Dropped(_, text) => text
  }

  function GlyphsText(s: seq<Glyph>): seq<byte> {
    if s == [] then [] else GlyphText(s[0]) + GlyphsText(s[1..])
  }

  function QuotedText(s: seq<Glyph>): seq<byte> {
    ['"' as int] + GlyphsText(s) + ['"' as int]
  }

  function DocText(d: Doc): seq<byte> {
    match d
    case NullDoc => Ascii("null")
    case FalseDoc => Ascii("false")
    case TrueDoc => Ascii("true")
    case NumberDoc(w) => Numeral(w)
    case StringDoc(glyphs) => QuotedText(glyphs)
    case EmptyArray(ws) => ['[' as int] + ws + [']' as int]
    case FilledArray(elements) => ['[' as int] + ElementsText(elements) + [']' as int]
    case EmptyObject(ws) => ['{' as int] + ws + ['}' as int]
    case FilledObject(pairs) => ['{' as int] + PairsText(pairs) + ['}' as int]
  }

  function ElementsText(e: Elements): seq<byte> {
    e.before + DocText(e.value) + e.after + if e.Element? then [',' as int] + ElementsText(e.rest) else []
  }

  function HeadText(p: Pairs): seq<byte> {
    p.before + QuotedText(p.key) + p.behindKey + [':' as int] + p.ahead
  }

  function PairsText(p: Pairs): seq<byte> {
    HeadText(p) + DocText(p.value) + p.after + if p.Pair? then [',' as int] + PairsText(p.rest) else []
  }

  // -------------------------------------------------------------- its meaning

  function Meant(c: byte): byte {
    if c == 'b' as int then 8 else if c == 'f' as int then 12 else if c == 'n' as int then 10
    else if c == 'r' as int then 13 else if c == 't' as int then 9 else c
  }

  function GlyphValue(g: Glyph): seq<byte>
    requires GoodGlyph(g)
  {
    match g
    case Plain(c) => [c]
    case Short(c) => [Meant(c)]
    case Coded(scalar, _) => Utf8(scalar)
    case Dropped(_, _) => []
  }

  function GlyphsValue(s: seq<Glyph>): seq<byte>
    requires GoodGlyphs(s)
  {
    if s == [] then [] else GlyphValue(s[0]) + GlyphsValue(s[1..])
  }

  function NumberValue(w: Written): Json
    requires WellWritten(w)
  {
    var n := Decimal(w.whole + w.fraction);
    Number(if w.negative then 0 - n as int else n, PowerValue(w.exponent) - |w.fraction|)
  }

  function Value(d: Doc): Json
    requires Good(d)
  {
    match d
    case NullDoc => Null
    case FalseDoc => False
    case TrueDoc => True
    case NumberDoc(w) => NumberValue(w)
    case StringDoc(glyphs) => String(GlyphsValue(glyphs))
    case EmptyArray(_) => Array(NoItems)
    case FilledArray(elements) => Array(ItemsValue(elements))
    case EmptyObject(_) => Object(NoMembers)
    case FilledObject(pairs) => Object(MembersValue(pairs))
  }

  function ItemsValue(e: Elements): Items
    requires GoodElements(e)
  {
    Item(Value(e.value), if e.Element? then ItemsValue(e.rest) else NoItems)
  }

  function MembersValue(p: Pairs): Members
    requires GoodPairs(p)
  {
    Member(GlyphsValue(p.key), Value(p.value), if p.Pair? then MembersValue(p.rest) else NoMembers)
  }

  // ------------------------------------------------------------ white space

  lemma BlankIsWhite(ws: seq<byte>)
    requires Blank(ws)
    ensures forall k :: 0 <= k < |ws| ==> White(ws[k])
  {}

  // White space up to something that is none
  lemma SkipsBlank(t: seq<byte>, i: nat, ws: seq<byte>)
    requires StartsWith(t, i, ws) && Blank(ws) && At(t, i + |ws|) > 0x20
    ensures Skip(t, i) == i + |ws|
  {
    hide StartsWith, Blank;
    BlankIsWhite(ws);
    SkipsWhite(t, i, ws);
    Blackens(t, i + |ws|);
  }

  predicate Closes(c: byte) { c == ',' as int || c == ']' as int || c == '}' as int }

  // Behind a value
  lemma BehindValue(t: seq<byte>, i: nat, ws: seq<byte>)
    requires StartsWith(t, i, ws) && Blank(ws) && Closes(At(t, i + |ws|))
    ensures Skip(t, i) == i + |ws| && Ends(At(t, i))
  {
    SkipsBlank(t, i, ws);
    if ws != [] {
      assert t[i] == ws[0];
    }
  }

  // ---------------------------------------------------------------- strings

  lemma SpellsThere(t: seq<byte>, i: nat, text: seq<byte>, c: nat)
    requires StartsWith(t, i, text) && |text| == Width(c) && Spells(text, 0, c)
    ensures Spells(t, i, c)
  {
    assert forall k :: 0 <= k < |text| ==> t[i + k] == text[k];
  }

  lemma DroppedRead(t: seq<byte>, i: nat, text: seq<byte>, unit: nat)
    requires StartsWith(t, i, text) && |text| == 6 && Unit(text, 0, unit) && (unit == 0 || 0xDC00 <= unit <= 0xDFFF)
    ensures At(t, i) == BACKSLASH && ParseChar(t, i) == Parsed([], i + 6)
    ensures WholeEscapes(t, i + 6) ==> WholeEscapes(t, i)
  {
    hide ParseHex4, Utf8, FourCounted, HexDigitOf;
    assert forall k :: 0 <= k < 6 ==> t[i + k] == text[k];
    UnitRead(t, i, unit);
  }

  lemma GlyphRead(t: seq<byte>, i: nat, g: Glyph)
    requires GoodGlyph(g) && StartsWith(t, i, GlyphText(g))
    ensures At(t, i) != QUOTE && At(t, i) != 0
    ensures ParseChar(t, i) == Parsed(GlyphValue(g), i + |GlyphText(g)|)
    ensures WholeEscapes(t, i + |GlyphText(g)|) ==> WholeEscapes(t, i)
  {
    hide Spells, Utf8, ParseUnicode, FourCounted, Unit;
    match g
    case Plain(c) => assert t[i] == [c][0];
    case Short(c) => assert t[i] == GlyphText(g)[0] && t[i + 1] == GlyphText(g)[1];
    case Coded(c, text) =>
      SpellsThere(t, i, text, c);
      CharRead(t, i, c);
    case Dropped(unit, text) => DroppedRead(t, i, text, unit);
  }

  lemma {:induction false} GlyphsRead(t: seq<byte>, i: nat, s: seq<Glyph>)
    requires GoodGlyphs(s) && StartsWith(t, i, GlyphsText(s)) && At(t, i + |GlyphsText(s)|) == QUOTE
    ensures ParseChars(t, i) == Parsed(GlyphsValue(s), i + |GlyphsText(s)|) && WholeEscapes(t, i)
    decreases |s|
  {
    hide GoodGlyph, GlyphText, GlyphValue, ParseChar, StartsWith, At;
    if s != [] {
      Splits(t, i, GlyphText(s[0]), GlyphsText(s[1..]));
      GlyphRead(t, i, s[0]);
      GlyphsRead(t, i + |GlyphText(s[0])|, s[1..]);
    }
  }

  lemma QuotedRead(t: seq<byte>, i: nat, s: seq<Glyph>)
    requires GoodGlyphs(s) && StartsWith(t, i, QuotedText(s))
    ensures At(t, i) == QUOTE && Fits(t, i + 1)
    ensures ParseString(t, i) == Some(Parsed(GlyphsValue(s), i + |QuotedText(s)|))
  {
    hide GlyphsText, ParseChars, WholeEscapes, Fits, GoodGlyphs, GlyphsValue;
    var inner, quote: seq<byte> := GlyphsText(s), ['"' as int];
    Splits(t, i, quote + inner, quote);
    Splits(t, i, quote, inner);
    FirstChar(t, i, quote);
    FirstChar(t, i + 1 + |inner|, quote);
    GlyphsRead(t, i + 1, s);
    StringFits(t, i + 1);
  }

  // ----------------------------------------------------------------- values

  lemma NumeralRead(t: seq<byte>, i: nat, w: Written)
    requires WellWritten(w) && StartsWith(t, i, Numeral(w)) && Ends(At(t, i + |Numeral(w)|))
    ensures At(t, i) == MINUS || IsDigit(At(t, i))
    ensures ParseNumber(t, i) == Parsed(NumberValue(w), i + |Numeral(w)|)
  {
    hide ParseNumber, Decimal, PowerText, FractionText, PowerValue;
    NumberRead(t, i, w);
    NumeralStart(w);
    FirstChar(t, i, Numeral(w));
  }

  lemma NumeralStart(w: Written)
    requires WellWritten(w)
    ensures |Numeral(w)| > 0 && (Numeral(w)[0] == MINUS || IsDigit(Numeral(w)[0]))
  {
    hide PowerText, FractionText;
  }

  // What a value starts with
  lemma DocStart(d: Doc)
    requires Good(d)
    ensures var s := DocText(d); |s| > 0 && s[0] > 0x20 && s[0] != RBRACKET && s[0] != RBRACE
  {
    hide GoodElements, GoodPairs, ElementsText, PairsText, GlyphsText, Numeral;
    if d.NumberDoc? {
      NumeralStart(d.w);
    }
  }

  lemma {:induction false} DocRead(t: seq<byte>, i: nat, d: Doc)
    requires Good(d) && StartsWith(t, i, DocText(d)) && Ends(At(t, i + |DocText(d)|))
    ensures ParseValue(t, i) == Some(Parsed(Value(d), i + |DocText(d)|)) && Safe(t, i)
    decreases d, 0
  {
    hide ParseNumber, ParseString, ParseArray, ParseObject, SafeItems, SafeMembers, Fits, Skip;
    hide ElementsText, PairsText, QuotedText, Numeral, GoodGlyphs, GlyphsValue, ItemsValue, MembersValue, NumberValue;
    match d
    case NullDoc => WordParses(t, i);
    case FalseDoc => WordParses(t, i);
    case TrueDoc => WordParses(t, i);
    case NumberDoc(w) =>
      NumeralRead(t, i, w);
      NoWord(t, i);
    case StringDoc(glyphs) =>
      QuotedRead(t, i, glyphs);
      NoWord(t, i);
    case EmptyArray(ws) =>
      EmptyArrayRead(t, i, ws);
      NoWord(t, i);
    case FilledArray(elements) =>
      ArrayRead(t, i, elements);
      NoWord(t, i);
    case EmptyObject(ws) =>
      EmptyObjectRead(t, i, ws);
      NoWord(t, i);
    case FilledObject(pairs) =>
      ObjectRead(t, i, pairs);
      NoWord(t, i);
  }

  lemma Inner(t: seq<byte>, i: nat, open: byte, s: seq<byte>, close: byte)
    requires StartsWith(t, i, [open] + s + [close])
    ensures At(t, i) == open && StartsWith(t, i + 1, s) && At(t, i + 1 + |s|) == close
  {
    hide StartsWith, At;
    Splits(t, i, [open] + s, [close]);
    Splits(t, i, [open], s);
    FirstChar(t, i, [open]);
    FirstChar(t, i + 1 + |s|, [close]);
  }

  lemma EmptyArrayRead(t: seq<byte>, i: nat, ws: seq<byte>)
    requires Blank(ws) && StartsWith(t, i, ['[' as int] + ws + [']' as int])
    ensures At(t, i) == LBRACKET && ParseArray(t, i) == Some(Parsed(Array(NoItems), i + 2 + |ws|)) && Safe(t, i)
  {
    hide StartsWith, Skip, At, Blank;
    Inner(t, i, '[' as int, ws, ']' as int);
    SkipsBlank(t, i + 1, ws);
  }

  lemma EmptyObjectRead(t: seq<byte>, i: nat, ws: seq<byte>)
    requires Blank(ws) && StartsWith(t, i, ['{' as int] + ws + ['}' as int])
    ensures At(t, i) == LBRACE && ParseObject(t, i) == Some(Parsed(Object(NoMembers), i + 2 + |ws|)) && Safe(t, i)
  {
    hide StartsWith, Skip, At, Blank;
    Inner(t, i, '{' as int, ws, '}' as int);
    SkipsBlank(t, i + 1, ws);
  }

  // ----------------------------------------------------------------- arrays

  lemma {:induction false} ArrayRead(t: seq<byte>, i: nat, e: Elements)
    requires GoodElements(e) && StartsWith(t, i, ['[' as int] + ElementsText(e) + [']' as int])
    ensures At(t, i) == LBRACKET && Safe(t, i)
    ensures ParseArray(t, i) == Some(Parsed(Array(ItemsValue(e)), i + 2 + |ElementsText(e)|))
    decreases e, 2
  {
    hide ParseItems, SafeItems, StartsWith, Skip, At, ElementsText, GoodElements, ItemsValue;
    Inner(t, i, '[' as int, ElementsText(e), ']' as int);
    SkipTwice(t, i + 1);
    ElementsRead(t, Skip(t, i + 1), i + 1, e);
  }

  // The bytes up to the first value, and the value itself
  lemma ElementParts(t: seq<byte>, i: nat, e: Elements)
    requires GoodElements(e) && StartsWith(t, i, ElementsText(e))
    ensures var vi := i + |e.before|; var next := vi + |DocText(e.value)|; var j := next + |e.after|;
            && Skip(t, i) == vi && StartsWith(t, vi, DocText(e.value)) && At(t, vi) != RBRACKET
            && StartsWith(t, next, e.after)
            && (if e.Element? then At(t, j) == COMMA && StartsWith(t, j + 1, ElementsText(e.rest))
                else j == i + |ElementsText(e)|)
  {
    hide StartsWith, Skip, At, DocText, Blank, GoodElements;
    ElementGood(e);
    var vi := i + |e.before|;
    Parted(t, i, e.before, DocText(e.value), e.after, if e.Element? then [',' as int] + ElementsText(e.rest) else []);
    if e.Element? {
      Comma(t, vi + |DocText(e.value)| + |e.after|, ElementsText(e.rest));
    }
    DocStart(e.value);
    FirstChar(t, vi, DocText(e.value));
    SkipsBlank(t, i, e.before);
  }

  lemma Parted(t: seq<byte>, i: nat, a: seq<byte>, b: seq<byte>, c: seq<byte>, d: seq<byte>)
    requires StartsWith(t, i, a + b + c + d)
    ensures StartsWith(t, i, a) && StartsWith(t, i + |a|, b) && StartsWith(t, i + |a| + |b|, c)
    ensures StartsWith(t, i + |a| + |b| + |c|, d)
  {
    hide StartsWith;
    Splits(t, i, a + b + c, d);
    Splits(t, i, a + b, c);
    Splits(t, i, a, b);
  }

  lemma Comma(t: seq<byte>, i: nat, s: seq<byte>)
    requires StartsWith(t, i, [',' as int] + s)
    ensures At(t, i) == COMMA && StartsWith(t, i + 1, s)
  {
    hide StartsWith, At;
    Splits(t, i, [',' as int], s);
    FirstChar(t, i, [',' as int]);
  }

  lemma ElementGood(e: Elements)
    requires GoodElements(e)
    ensures Blank(e.before) && Good(e.value) && Blank(e.after) && (e.Element? ==> GoodElements(e.rest))
  {}

  lemma {:induction false} ElementsRead(t: seq<byte>, from: nat, i: nat, e: Elements)
    requires GoodElements(e) && StartsWith(t, i, ElementsText(e)) && Skip(t, from) == Skip(t, i)
    requires At(t, i + |ElementsText(e)|) == RBRACKET
    ensures At(t, Skip(t, i)) != RBRACKET && SafeItems(t, from)
    ensures ParseItems(t, from) == Some(Parsed(ItemsValue(e), i + |ElementsText(e)|))
    decreases e, 1
  {
    hide StartsWith, Skip, At, DocText, Blank, Good, Value, ParseValue, Safe;
    ElementGood(e);
    ElementParts(t, i, e);
    var vi := i + |e.before|;
    var next := vi + |DocText(e.value)|;
    BehindValue(t, next, e.after);
    DocRead(t, vi, e.value);
    if e.Element? {
      ElementsRead(t, next + |e.after| + 1, next + |e.after| + 1, e.rest);
    }
  }

  // ---------------------------------------------------------------- objects

  lemma {:induction false} ObjectRead(t: seq<byte>, i: nat, p: Pairs)
    requires GoodPairs(p) && StartsWith(t, i, ['{' as int] + PairsText(p) + ['}' as int])
    ensures At(t, i) == LBRACE && Safe(t, i)
    ensures ParseObject(t, i) == Some(Parsed(Object(MembersValue(p)), i + 2 + |PairsText(p)|))
    decreases p, 2
  {
    hide ParseMembers, SafeMembers, StartsWith, Skip, At, PairsText, GoodPairs, MembersValue;
    Inner(t, i, '{' as int, PairsText(p), '}' as int);
    SkipTwice(t, i + 1);
    PairsRead(t, Skip(t, i + 1), i + 1, p);
  }

  lemma PairGood(p: Pairs)
    requires GoodPairs(p)
    ensures Blank(p.before) && GoodGlyphs(p.key) && Blank(p.behindKey) && Blank(p.ahead)
    ensures Good(p.value) && Blank(p.after) && (p.Pair? ==> GoodPairs(p.rest))
  {}

  // The key and the colon, up to the value
  lemma HeadRead(t: seq<byte>, i: nat, p: Pairs)
    requires GoodPairs(p) && StartsWith(t, i, HeadText(p)) && At(t, i + |HeadText(p)|) > 0x20
    ensures var ki := i + |p.before|; var behind := ki + |QuotedText(p.key)|; var colon := behind + |p.behindKey|;
            && Skip(t, i) == ki && At(t, ki) == QUOTE && Fits(t, ki + 1)
            && ParseString(t, ki) == Some(Parsed(GlyphsValue(p.key), behind))
            && Skip(t, behind) == colon && At(t, colon) == COLON && Skip(t, colon + 1) == i + |HeadText(p)|
  {
    hide StartsWith, Skip, At, Blank, GoodPairs, GoodGlyphs, QuotedText, GlyphsValue, ParseString, Fits;
    PairGood(p);
    var a, b, c, d, e := p.before, QuotedText(p.key), p.behindKey, [':' as int], p.ahead;
    Splits(t, i, a + b + c + d, e);
    Splits(t, i, a + b + c, d);
    Splits(t, i, a + b, c);
    Splits(t, i, a, b);
    QuotedRead(t, i + |a|, p.key);
    SkipsBlank(t, i, a);
    FirstChar(t, i + |a| + |b| + |c|, d);
    SkipsBlank(t, i + |a| + |b|, c);
    SkipsBlank(t, i + |a| + |b| + |c| + 1, e);
  }

  lemma PairParts(t: seq<byte>, i: nat, p: Pairs)
    requires GoodPairs(p) && StartsWith(t, i, PairsText(p))
    ensures var vi := i + |HeadText(p)|; var next := vi + |DocText(p.value)|; var j := next + |p.after|;
            && StartsWith(t, i, HeadText(p)) && StartsWith(t, vi, DocText(p.value)) && At(t, vi) > 0x20
            && StartsWith(t, next, p.after)
            && (if p.Pair? then At(t, j) == COMMA && StartsWith(t, j + 1, PairsText(p.rest))
                else j == i + |PairsText(p)|)
  {
    hide StartsWith, Skip, At, DocText, Blank, GoodPairs, HeadText;
    PairGood(p);
    Parted(t, i, HeadText(p), DocText(p.value), p.after, if p.Pair? then [',' as int] + PairsText(p.rest) else []);
    if p.Pair? {
      Comma(t, i + |HeadText(p)| + |DocText(p.value)| + |p.after|, PairsText(p.rest));
    }
    DocStart(p.value);
    FirstChar(t, i + |HeadText(p)|, DocText(p.value));
  }

  lemma {:induction false} PairsRead(t: seq<byte>, from: nat, i: nat, p: Pairs)
    requires GoodPairs(p) && StartsWith(t, i, PairsText(p)) && Skip(t, from) == Skip(t, i)
    requires At(t, i + |PairsText(p)|) == RBRACE
    ensures At(t, Skip(t, i)) != RBRACE && SafeMembers(t, from)
    ensures ParseMembers(t, from) == Some(Parsed(MembersValue(p), i + |PairsText(p)|))
    decreases p, 1
  {
    hide StartsWith, Skip, At, DocText, HeadText, Blank, Good, Value, ParseValue, ParseString, Safe, Fits, GlyphsValue;
    hide GoodGlyphs;
    PairGood(p);
    PairParts(t, i, p);
    var vi := i + |HeadText(p)|;
    var next := vi + |DocText(p.value)|;
    HeadRead(t, i, p);
    BehindValue(t, next, p.after);
    DocRead(t, vi, p.value);
    if p.Pair? {
      PairsRead(t, next + |p.after| + 1, next + |p.after| + 1, p.rest);
    }
  }

  // ------------------------------------------------------------ whole texts

  // Section 2: a text is one value, with white space around it.  It is read to its end,
  // also when nothing may follow, and means its value.
  lemma TextRead(before: seq<byte>, d: Doc, after: seq<byte>, whole: bool)
    requires Blank(before) && Good(d) && Blank(after)
    ensures var t := before + DocText(d) + after;
            && Safe(t, Skip(t, 0))
            && ParseWithOpts(t, whole) == Some(Parsed(Value(d), if whole then |t| else |before + DocText(d)|))
  {
    hide StartsWith, Skip, At, DocText, Good, Value, ParseValue, Safe, Blank;
    var t := before + DocText(d) + after;
    var vi, next := |before|, |before + DocText(d)|;
    Stand(before, DocText(d), after);
    DocStart(d);
    FirstChar(t, vi, DocText(d));
    SkipsBlank(t, 0, before);
    ToTheEnd(t, next, after);
    DocRead(t, vi, d);
  }

  lemma Stand(a: seq<byte>, b: seq<byte>, c: seq<byte>)
    ensures var t := a + b + c; StartsWith(t, 0, a) && StartsWith(t, |a|, b) && StartsWith(t, |a + b|, c)
  {}

  lemma ToTheEnd(t: seq<byte>, i: nat, ws: seq<byte>)
    requires StartsWith(t, i, ws) && Blank(ws) && |t| == i + |ws|
    ensures Skip(t, i) == |t| && At(t, |t|) == 0 && Ends(At(t, i))
  {
    BlankIsWhite(ws);
    SkipsWhite(t, i, ws);
    if ws != [] {
      assert t[i] == ws[0];
    }
  }

  // cJSON_ParseWithOpts on such a text
  method TakeText(t: seq<byte>, whole: bool, ghost before: seq<byte>, ghost d: Doc, ghost after: seq<byte>)
    returns (v: Option<Parsed<Json>>)
    requires Blank(before) && Good(d) && Blank(after) && t == before + DocText(d) + after
    ensures v == Some(Parsed(Value(d), if whole then |t| else |t| - |after|))
  {
    hide DocText, Good, Value, Safe, Blank, ParseWithOpts, Skip;
    TextRead(before, d, after, whole);
    v := TakeWithOpts(t, whole);
  }
}
