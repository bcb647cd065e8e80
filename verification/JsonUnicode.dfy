// The "\u" escapes of packages/cJSON-v1.0.2/cJSON.c: whatever characters a string
// spells with them (section 7 of RFC 8259), the parser stores their UTF-8 form
// (section 3 of RFC 3629).
module JsonUnicode {
  import opened Bytes
  import opened JsonPrint
  import opened JsonParse
  import opened JsonReader

  // ------------------------------------------------------- what the RFCs say

  predicate IsScalar(c: nat) {
    c < 0x11_0000 && !(0xD800 <= c <= 0xDFFF)
  }

  // A continuation byte, 10xxxxxx
  predicate Continues(b: byte) { 0x80 <= b < 0xC0 }

  // Its six bits
  function Sextet(b: byte): int { b - 0x80 }

  // One character and the number of bytes it takes
  datatype First = First(c: nat, n: nat) | Ill

  // The table of section 3 of RFC 3629, without the sequences it forbids.
  function FirstOf(s: seq<byte>): (f: First)
    requires s != []
    ensures f.First? ==> 0 < f.n <= |s| && IsScalar(f.c)
  {
    var b: int := s[0];
    if b < 0x80 then First(b, 1)
    else if 0xC0 <= b < 0xE0 && |s| >= 2 && Continues(s[1]) then
      var c := (b - 0xC0) * 64 + Sextet(s[1]);
      if 0x80 <= c then First(c, 2) else Ill
    else if 0xE0 <= b < 0xF0 && |s| >= 3 && Continues(s[1]) && Continues(s[2]) then
      var c := (b - 0xE0) * 4096 + Sextet(s[1]) * 64 + Sextet(s[2]);
      if 0x800 <= c && IsScalar(c) then First(c, 3) else Ill
    else if 0xF0 <= b < 0xF8 && |s| >= 4 && Continues(s[1]) && Continues(s[2]) && Continues(s[3]) then
      var c := (b - 0xF0) * 0x4_0000 + Sextet(s[1]) * 4096 + Sextet(s[2]) * 64 + Sextet(s[3]);
      if 0x1_0000 <= c && IsScalar(c) then First(c, 4) else Ill
    else Ill
  }

  function Characters(s: seq<byte>): Option<seq<nat>>
    decreases |s|
  {
    if s == [] then Some([])
    else
      match FirstOf(s)
      case Ill => None
      case First(c, n) =>
        match Characters(s[n..])
        case None => None
        case Some(rest) => Some([c] + rest)
  }

  // A hexadecimal digit, in either case of the letters
  predicate HexDigitOf(c: byte, d: nat) {
    if d < 10 then c == '0' as int + d
    else d < 16 && (c == 'a' as int + (d - 10) || c == 'A' as int + (d - 10))
  }

  // The escape of one 16-bit unit, from i on
  predicate Unit(t: seq<byte>, i: nat, n: nat) {
    && i + 6 <= |t| && t[i] == '\\' as int && t[i + 1] == 'u' as int
    && HexDigitOf(t[i + 2], n / 4096) && HexDigitOf(t[i + 3], n / 256 % 16)
    && HexDigitOf(t[i + 4], n / 16 % 16) && HexDigitOf(t[i + 5], n % 16)
  }

  // A character as one unit, or as a surrogate pair
  predicate Spells(t: seq<byte>, i: nat, c: nat) {
    if c < 0x1_0000 then Unit(t, i, c)
    else Unit(t, i, 0xD800 + (c - 0x1_0000) / 0x400) && Unit(t, i + 6, 0xDC00 + (c - 0x1_0000) % 0x400)
  }

  function Width(c: nat): nat { if c < 0x1_0000 then 6 else 12 }

  // Characters one behind the other, up to end
  predicate SpellsAll(t: seq<byte>, i: nat, cs: seq<nat>, end: nat)
    decreases |cs|
  {
    if cs == [] then i == end
    else IsScalar(cs[0]) && cs[0] != 0 && Spells(t, i, cs[0]) && SpellsAll(t, i + Width(cs[0]), cs[1..], end)
  }

  // ------------------------------------------------------------- one unit

  lemma DigitRead(c: byte, d: nat)
    requires HexDigitOf(c, d)
    ensures HexValue(c) == Some(d) && Ordinary(c)
  {}

  // Four hex digits of any number, in either case of the letters, are read as that number.
  lemma UnitRead(t: seq<byte>, i: nat, n: nat)
    requires n < 0x1_0000 && Unit(t, i, n)
    ensures ParseHex4(t, i + 2) == n && FourCounted(t, i + 2)
    ensures At(t, i) == BACKSLASH && At(t, i + 1) == LOWER_U
  {
    hide HexValue, HexDigitOf;
    DigitRead(t[i + 2], n / 4096);
    DigitRead(t[i + 3], n / 256 % 16);
    DigitRead(t[i + 4], n / 16 % 16);
    DigitRead(t[i + 5], n % 16);
    FourDigits(n);
  }

  predicate IsHex(c: byte) {
    || '0' as int <= c <= '9' as int || 'a' as int <= c <= 'f' as int || 'A' as int <= c <= 'F' as int
  }

  // Anything else among the four, the end of the text included, makes it the unit 0, which
  // a string does not take.
  lemma UnitRefused(t: seq<byte>, i: nat, k: nat)
    requires k < 4 && (|t| <= i + 1 + k || !IsHex(t[i + 1 + k]))
    ensures ParseHex4(t, i + 1) == 0 && ParseUnicode(t, i) == Parsed([], i + 4)
  {
    hide HexValue, Utf8;
    NoDigit(At(t, i + 1 + k));
  }

  lemma NoDigit(c: byte)
    ensures HexValue(c).Some? <==> IsHex(c)
  {}

  lemma FourDigits(n: nat)
    ensures ((n / 4096 * 16 + n / 256 % 16) * 16 + n / 16 % 16) * 16 + n % 16 == n
  {
    var a := n / 16;
    Sixteenth(n);
    Sixteenth(a);
    Sixteenth(a / 16);
    assert a / 16 == n / 256;
    assert a / 16 / 16 == n / 4096;
  }

  lemma Sixteenth(n: nat)
    ensures n / 16 * 16 + n % 16 == n
  {}

  // -------------------------------------------------------- one character

  lemma Paired(c: nat)
    requires 0x1_0000 <= c < 0x11_0000
    ensures var high, low := 0xD800 + (c - 0x1_0000) / 0x400, 0xDC00 + (c - 0x1_0000) % 0x400;
            && 0xD800 <= high <= 0xDBFF && 0xDC00 <= low <= 0xDFFF
            && 0x1_0000 + high % 0x400 * 0x400 + low % 0x400 == c
  {
    var high := 0xD800 + (c - 0x1_0000) / 0x400;
    assert high % 0x400 == (c - 0x1_0000) / 0x400;
  }

  lemma CharRead(t: seq<byte>, i: nat, c: nat)
    requires IsScalar(c) && c != 0 && Spells(t, i, c)
    ensures ParseChar(t, i) == Parsed(Utf8(c), i + Width(c)) && At(t, i) == BACKSLASH && i + Width(c) <= |t|
    ensures WholeEscapes(t, i + Width(c)) ==> WholeEscapes(t, i)
  {
    hide ParseHex4, Utf8, Unit, FourCounted;
    if c < 0x1_0000 {
      UnitRead(t, i, c);
    } else {
      Paired(c);
      UnitRead(t, i, 0xD800 + (c - 0x1_0000) / 0x400);
      UnitRead(t, i + 6, 0xDC00 + (c - 0x1_0000) % 0x400);
    }
    UnitEnds(t, i, c);
  }

  lemma UnitEnds(t: seq<byte>, i: nat, c: nat)
    requires Spells(t, i, c)
    ensures i + Width(c) <= |t|
  {}

  // The bytes stored for a character are its UTF-8 form.
  lemma Utf8First(c: nat, rest: seq<byte>)
    requires IsScalar(c)
    ensures FirstOf(Utf8(c) + rest) == First(c, |Utf8(c)|) && (Utf8(c) + rest)[|Utf8(c)|..] == rest
  {
    var s := Utf8(c) + rest;
    assert s[..|Utf8(c)|] == Utf8(c);
    if 0x80 <= c < 0x800 {
      assert s[0] == 0xC0 + c / 0x40 && s[1] == 0x80 + c % 0x40;
    } else if 0x800 <= c < 0x1_0000 {
      assert s[0] == 0xE0 + c / 0x1000 && s[1] == 0x80 + c / 0x40 % 0x40 && s[2] == 0x80 + c % 0x40;
      ThreeSextets(c);
    } else if 0x1_0000 <= c {
      assert s[0] == 0xF0 + c / 0x4_0000 && s[1] == 0x80 + c / 0x1000 % 0x40;
      assert s[2] == 0x80 + c / 0x40 % 0x40 && s[3] == 0x80 + c % 0x40;
      ThreeSextets(c);
    }
  }

  lemma ThreeSextets(c: nat)
    ensures c == c / 0x1000 * 4096 + c / 0x40 % 0x40 * 64 + c % 0x40
    ensures c / 0x1000 == c / 0x4_0000 * 64 + c / 0x1000 % 0x40
  {
    assert c / 0x40 == c / 0x1000 * 64 + c / 0x40 % 0x40;
  }

  // --------------------------------------------------------- whole strings

  lemma {:induction false} CharsRead(t: seq<byte>, i: nat, cs: seq<nat>, end: nat)
    requires SpellsAll(t, i, cs, end) && At(t, end) == QUOTE
    ensures var r := ParseChars(t, i); r.next == end && Characters(r.value) == Some(cs)
    ensures WholeEscapes(t, i) && i <= |t|
    decreases |cs|
  {
    hide Spells, ParseChar, FirstOf, Utf8;
    if cs != [] {
      var next := i + Width(cs[0]);
      CharRead(t, i, cs[0]);
      CharsRead(t, next, cs[1..], end);
      Utf8First(cs[0], ParseChars(t, next).value);
      NotEmpty(cs[0]);
      FirstUnfolds(Utf8(cs[0]), ParseChars(t, next).value, cs[0]);
      assert cs == [cs[0]] + cs[1..];
    }
  }

  lemma FirstUnfolds(a: seq<byte>, b: seq<byte>, c: nat)
    requires a != [] && FirstOf(a + b) == First(c, |a|) && Characters(b).Some?
    ensures Characters(a + b) == Some([c] + Characters(b).value)
  {
    hide FirstOf;
    assert (a + b)[|a|..] == b;
  }

  lemma NotEmpty(c: nat)
    requires c < 0x11_0000
    ensures Utf8(c) != []
  {}

  // Any characters but NUL, each written as an escape or a surrogate pair, come out as their
  // UTF-8 form, and the program reads them within the text and into its buffer.
  lemma EscapesRead(t: seq<byte>, i: nat, cs: seq<nat>, end: nat)
    requires i < |t| && t[i] == '"' as int && SpellsAll(t, i + 1, cs, end) && end < |t| && t[end] == '"' as int
    ensures Fits(t, i + 1)
    ensures var r := ParseString(t, i); r.Some? && r.value.next == end + 1 && Characters(r.value.value) == Some(cs)
  {
    hide SpellsAll, Characters, ParseChars, WholeEscapes, Fits;
    CharsRead(t, i + 1, cs, end);
    StringFits(t, i + 1);
  }

  // So does the program.
  method TakeEscapes(t: seq<byte>, i: nat, ghost cs: seq<nat>, ghost end: nat) returns (s: seq<byte>, next: nat)
    requires i < |t| && t[i] == '"' as int && SpellsAll(t, i + 1, cs, end) && end < |t| && t[end] == '"' as int
    ensures Characters(s) == Some(cs) && next == end + 1
  {
    hide SpellsAll, Characters, ParseString, Fits;
    EscapesRead(t, i, cs, end);
    var r := TakeString(t, i);
    return r.value.value, r.value.next;
  }
}
