// Machine bytes and the fixed-width big-endian fields the protocol codecs share.
module Bytes {

  type byte = b: int | 0 <= b < 0x100
  type u16 = n: int | 0 <= n < 0x1_0000
  type u32 = n: int | 0 <= n < 0x1_0000_0000

  datatype Option<+T> = None | Some(value: T)

  // Truncation to the width of the C variable that receives the value.
  function U8(n: int): byte { n % 0x100 }

  function U16(n: int): u16 { n % 0x1_0000 }

  // htons / htonl followed by a copy into the packet.
  function Be16(n: u16): (s: seq<byte>)
    ensures |s| == 2
  {
    [n / 0x100, n % 0x100]
  }

  function Be32(n: u32): (s: seq<byte>)
    ensures |s| == 4
  {
    Be16(n / 0x1_0000) + Be16(n % 0x1_0000)
  }

  function FromBe16(s: seq<byte>): u16
    requires |s| == 2
  {
    s[0] as int * 0x100 + s[1]
  }

  function FromBe32(s: seq<byte>): u32
    requires |s| == 4
  {
    FromBe16(s[..2]) * 0x1_0000 + FromBe16(s[2..])
  }

  lemma Be32RoundTrip(n: u32)
    ensures FromBe32(Be32(n)) == n
  {
    assert Be32(n)[..2] == Be16(n / 0x1_0000);
    assert Be32(n)[2..] == Be16(n % 0x1_0000);
  }

  // Text without regard to the case of its letters
  function Lower(c: byte): byte { if 0x41 <= c <= 0x5A then c + 0x20 else c }

  function Lowered(s: seq<byte>): (r: seq<byte>)
    ensures |r| == |s|
  {
    seq(|s|, i requires 0 <= i < |s| => Lower(s[i]))
  }

  // The same but for the case of an ASCII letter
  predicate SameLetter(a: byte, b: byte) {
    || a == b
    || ('A' as int <= a <= 'Z' as int && b - a == 'a' as int - 'A' as int)
    || ('A' as int <= b <= 'Z' as int && a - b == 'a' as int - 'A' as int)
  }

  predicate SameText(a: seq<byte>, b: seq<byte>) {
    |a| == |b| && forall i :: 0 <= i < |a| ==> SameLetter(a[i], b[i])
  }

  lemma LoweredMeans(a: seq<byte>, b: seq<byte>)
    ensures Lowered(a) == Lowered(b) <==> SameText(a, b)
  {
    if SameText(a, b) {
      assert forall i :: 0 <= i < |a| ==> Lowered(a)[i] == Lowered(b)[i];
    } else if |a| == |b| {
      var i :| 0 <= i < |a| && !SameLetter(a[i], b[i]);
      assert Lowered(a)[i] != Lowered(b)[i];
    }
  }

  // The octets of a text in ASCII
  function Ascii(text: string): (s: seq<byte>)
    requires forall i :: 0 <= i < |text| ==> text[i] < 128 as char
    ensures |s| == |text|
  {
    seq(|text|, i requires 0 <= i < |text| => text[i] as int)
  }

  const DIGIT_0: byte := 0x30

  // Decimal digits, most significant first.
  function Digits(n: nat): (s: seq<byte>)
    ensures |s| > 0
  {
    if n < 10 then [DIGIT_0 + n] else Digits(n / 10) + [DIGIT_0 + n % 10]
  }

  // The value of a hexadecimal digit
  function HexValue(c: byte): (r: Option<nat>)
    ensures r.Some? ==> r.value < 16
  {
    if DIGIT_0 <= c <= DIGIT_0 + 9 then Some(c - DIGIT_0)
    else if 0x41 <= c <= 0x46 then Some(10 + (c - 0x41))
    else if 0x61 <= c <= 0x66 then Some(10 + (c - 0x61))
    else None
  }

  // The pieces of something that came in several times.
  function Concat<T>(pieces: seq<seq<T>>): seq<T> {
    if pieces == [] then [] else Concat(pieces[..|pieces| - 1]) + pieces[|pieces| - 1]
  }

  // Byte strings one after the other
  function Flat(pieces: seq<seq<byte>>): seq<byte> {
    if pieces == [] then [] else pieces[0] + Flat(pieces[1..])
  }
}
