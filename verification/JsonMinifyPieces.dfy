// cJSON_Minify of packages/cJSON-v1.0.2/cJSON.c on any text that consists of white
// space, comments, strings and other characters: the white space and the comments
// go, all the rest stays.
module JsonMinifyPieces {
  import opened Bytes
  import opened JsonPrint
  import opened JsonParse
  import opened JsonRoundTrip
  import opened JsonMinify
  import opened JsonMinifyPrint

  // A character of a string, or a backslash and the one it escapes
  datatype Glyph = Raw(c: byte) | Pair(c: byte)

  datatype Piece =
    | White(c: byte)
    | LineComment(text: seq<byte>)
    | BlockComment(text: seq<byte>)
    | Quoted(glyphs: seq<Glyph>)
    | Other(c: byte)

  function GlyphText(g: Glyph): seq<byte> {
    match g case Raw(c) => [c] case Pair(c) => ['\\' as int, c]
  }

  function GlyphsText(glyphs: seq<Glyph>): seq<byte> {
    if glyphs == [] then [] else GlyphText(glyphs[0]) + GlyphsText(glyphs[1..])
  }

  function PieceText(p: Piece): seq<byte> {
    match p
    case White(c) => [c]
    case LineComment(text) => Ascii("//") + text + ['\n' as int]
    case BlockComment(text) => Ascii("/*") + text + Ascii("*/")
    case Quoted(glyphs) => ['"' as int] + GlyphsText(glyphs) + ['"' as int]
    case Other(c) => [c]
  }

  predicate WhiteSpace(c: byte) {
    c == ' ' as int || c == '\t' as int || c == '\r' as int || c == '\n' as int
  }

  predicate GlyphFine(g: Glyph) {
    g.c != 0 && (g.Raw? ==> g.c != '"' as int && g.c != '\\' as int)
  }

  // The closing mark stands nowhere before the end; the star of the opening one counts.
  predicate BlockFine(text: seq<byte>) {
    var s := ['*' as int] + text + Ascii("*/");
    0 !in text && forall k :: 0 <= k < |s| - 2 ==> !(s[k] == '*' as int && s[k + 1] == '/' as int)
  }

  predicate Fine(p: Piece) {
    match p
    case White(c) => WhiteSpace(c)
    case LineComment(text) => 0 !in text && '\n' as int !in text
    case BlockComment(text) => BlockFine(text)
    case Quoted(glyphs) => forall k :: 0 <= k < |glyphs| ==> GlyphFine(glyphs[k])
    case Other(c) => c != 0 && !WhiteSpace(c) && c != '"' as int && c != '/' as int
  }

  function Text(pieces: seq<Piece>): seq<byte> {
    if pieces == [] then [] else PieceText(pieces[0]) + Text(pieces[1..])
  }

  // Strings and other characters
  function Stays(p: Piece): seq<byte> {
    if p.Quoted? || p.Other? then PieceText(p) else []
  }

  function StaysAll(pieces: seq<Piece>): seq<byte> {
    if pieces == [] then [] else Stays(pieces[0]) + StaysAll(pieces[1..])
  }

  // ----------------------------------------------------------- one piece

  lemma {:induction false} LineEnds(t: seq<byte>, i: nat, text: seq<byte>)
    requires 0 !in text && '\n' as int !in text && StartsWith(t, i, text) && At(t, i + |text|) == NEWLINE
    ensures LineEnd(t, i) == i + |text|
    decreases |text|
  {
    if text != [] {
      assert t[i] == text[0];
      assert forall k :: 0 <= k < |text| - 1 ==> text[1..][k] == text[k + 1];
      LineEnds(t, i + 1, text[1..]);
    }
  }

  lemma {:induction false} CommentEnds(t: seq<byte>, i: nat, j: nat)
    requires i <= j && j + 1 < |t| && t[j] == STAR && t[j + 1] == SLASH
    requires forall k :: i <= k < j ==> t[k] != 0 && !(t[k] == STAR && t[k + 1] == SLASH)
    ensures CommentEnd(t, i) == j
    decreases j - i
  {
    if i < j {
      CommentEnds(t, i + 1, j);
    }
  }

  lemma {:induction false} GlyphsEnd(t: seq<byte>, i: nat, glyphs: seq<Glyph>)
    requires forall k :: 0 <= k < |glyphs| ==> GlyphFine(glyphs[k])
    requires StartsWith(t, i, GlyphsText(glyphs)) && At(t, i + |GlyphsText(glyphs)|) == QUOTE
    ensures StringEnd(t, i) == i + |GlyphsText(glyphs)|
    decreases |glyphs|
  {
    if glyphs != [] {
      var g, rest := GlyphText(glyphs[0]), GlyphsText(glyphs[1..]);
      Splits(t, i, g, rest);
      assert t[i] == g[0];
      assert GlyphFine(glyphs[0]);
      GlyphsEnd(t, i + |g|, glyphs[1..]);
    }
  }

  lemma QuotedToken(t: seq<byte>, i: nat, glyphs: seq<Glyph>)
    requires Fine(Quoted(glyphs)) && StartsWith(t, i, PieceText(Quoted(glyphs)))
    ensures Yields(t, i, i + |PieceText(Quoted(glyphs))|, PieceText(Quoted(glyphs)))
  {
    hide Yields, StartsWith, StringEnd, GlyphsText;
    var body, s := GlyphsText(glyphs), PieceText(Quoted(glyphs));
    Splits(t, i, ['"' as int] + body, ['"' as int]);
    Splits(t, i, ['"' as int], body);
    FirstChar(t, i, ['"' as int]);
    FirstChar(t, i + 1 + |body|, ['"' as int]);
    GlyphsEnd(t, i + 1, glyphs);
    Stretch(t, i, s);
    QuotedYields(t, i);
  }

  lemma Stretch(t: seq<byte>, i: nat, s: seq<byte>)
    requires StartsWith(t, i, s)
    ensures i + |s| <= |t| && t[i..i + |s|] == s
  {}

  lemma QuotedYields(t: seq<byte>, i: nat)
    requires At(t, i) == QUOTE && StringEnd(t, i + 1) + 1 <= |t|
    ensures Yields(t, i, StringEnd(t, i + 1) + 1, t[i..StringEnd(t, i + 1) + 1])
  {
    hide StringEnd;
  }

  lemma LineToken(t: seq<byte>, i: nat, text: seq<byte>)
    requires Fine(LineComment(text)) && StartsWith(t, i, PieceText(LineComment(text)))
    ensures Yields(t, i, i + |PieceText(LineComment(text))|, [])
  {
    var open, s := Ascii("//"), PieceText(LineComment(text));
    Splits(t, i, open + text, ['\n' as int]);
    Splits(t, i, open, text);
    assert t[i] == open[0] && t[i + 1] == open[1];
    FirstChar(t, i + 2 + |text|, ['\n' as int]);
    LineEnds(t, i + 2, text);
    assert LineEnd(t, i + 1) == LineEnd(t, i + 2);
    OneChar(t, i + 2 + |text|);
    LineYields(t, i);
    Chain(t, i, i + 2 + |text|, i + |s|, [], []);
    assert s[..0] + s[..0] == [];
  }

  lemma LineYields(t: seq<byte>, i: nat)
    requires i + 1 < |t| && t[i] == SLASH && t[i + 1] == SLASH && LineEnd(t, i + 1) <= |t|
    ensures Yields(t, i, LineEnd(t, i + 1), [])
  {}

  lemma BlockToken(t: seq<byte>, i: nat, text: seq<byte>)
    requires Fine(BlockComment(text)) && StartsWith(t, i, PieceText(BlockComment(text)))
    ensures Yields(t, i, i + |PieceText(BlockComment(text))|, [])
  {
    hide Yields, StartsWith, Ascii, PieceText, BlockFine, CommentEnd;
    var inner := ['*' as int] + text + Ascii("*/");
    BlockStart(text);
    Splits(t, i, ['/' as int], inner);
    FirstChar(t, i, ['/' as int]);
    InnerEnds(t, i + 1, text);
    BlockYields(t, i);
  }

  lemma BlockStart(text: seq<byte>)
    ensures PieceText(BlockComment(text)) == ['/' as int] + (['*' as int] + text + Ascii("*/"))
    ensures |PieceText(BlockComment(text))| == |text| + 4
  {
    hide Ascii;
    Marks();
    OneAndRest('/' as int, ['*' as int], text, Ascii("*/"));
  }

  lemma Marks()
    ensures Ascii("/*") == ['/' as int] + ['*' as int]
  {}

  lemma OneAndRest(a: byte, b: seq<byte>, c: seq<byte>, d: seq<byte>)
    ensures [a] + b + c + d == [a] + (b + c + d)
  {}

  // From the star of the opening mark on
  lemma InnerEnds(t: seq<byte>, i: nat, text: seq<byte>)
    requires BlockFine(text) && StartsWith(t, i, ['*' as int] + text + Ascii("*/"))
    ensures At(t, i) == STAR && CommentEnd(t, i) == i + 1 + |text| && i + 3 + |text| <= |t|
  {
    var inner := ['*' as int] + text + Ascii("*/");
    var j := i + 1 + |text|;
    assert inner[0] == '*' as int && inner[|text| + 1] == Ascii("*/")[0] && inner[|text| + 2] == Ascii("*/")[1];
    assert t[i] == inner[0] && t[j] == inner[j - i] && t[j + 1] == inner[j + 1 - i];
    forall k | i <= k < j ensures t[k] != 0 && !(t[k] == STAR && t[k + 1] == SLASH) {
      assert t[k] == inner[k - i] && t[k + 1] == inner[k + 1 - i];
      assert k > i ==> inner[k - i] == text[k - i - 1];
    }
    CommentEnds(t, i, j);
  }

  lemma BlockYields(t: seq<byte>, i: nat)
    requires At(t, i) == SLASH && At(t, i + 1) == STAR && CommentEnd(t, i + 1) + 2 <= |t|
    ensures Yields(t, i, CommentEnd(t, i + 1) + 2, [])
  {
    hide CommentEnd;
  }

  lemma PieceYields(t: seq<byte>, i: nat, p: Piece)
    requires Fine(p) && StartsWith(t, i, PieceText(p))
    ensures Yields(t, i, i + |PieceText(p)|, Stays(p))
  {
    match p
    case White(c) =>
      assert t[i] == [c][0];
      OneChar(t, i);
    case LineComment(text) => LineToken(t, i, text);
    case BlockComment(text) => BlockToken(t, i, text);
    case Quoted(glyphs) => QuotedToken(t, i, glyphs);
    case Other(c) =>
      assert t[i] == [c][0];
      OneChar(t, i);
  }

  // ------------------------------------------------------------ all pieces

  lemma {:induction false} PiecesYield(t: seq<byte>, i: nat, pieces: seq<Piece>)
    requires (forall k :: 0 <= k < |pieces| ==> Fine(pieces[k])) && StartsWith(t, i, Text(pieces))
    ensures Yields(t, i, i + |Text(pieces)|, StaysAll(pieces))
    decreases |pieces|
  {
    hide Yields, Fine, PieceText, Stays;
    if pieces == [] {
      Nothing(t, i);
    } else {
      var a, rest := PieceText(pieces[0]), Text(pieces[1..]);
      Splits(t, i, a, rest);
      PieceYields(t, i, pieces[0]);
      PiecesYield(t, i + |a|, pieces[1..]);
      Chain(t, i, i + |a|, i + |a| + |rest|, Stays(pieces[0]), StaysAll(pieces[1..]));
    }
  }

  // Minifying a text drops exactly its white space and comments, outside of strings.
  lemma MinifyPieces(pieces: seq<Piece>)
    requires forall k :: 0 <= k < |pieces| ==> Fine(pieces[k])
    ensures var t := Text(pieces); Closed(t, 0) && Minify(t, 0) == StaysAll(pieces)
  {
    hide StartsWith, NextToken, Fine, Text, StaysAll;
    var t := Text(pieces);
    StartsItself(t, []);
    assert t + [] == t;
    PiecesYield(t, 0, pieces);
    assert StaysAll(pieces) + [] == StaysAll(pieces);
  }
}
