// The two base64 decoders: cs_base64_decode of packages/mongoose-v6.7/mongoose.c
// and str_base64_decode of ports/wifi/wifi_config.c.  What they do on any input,
// and that both give back what was encoded.
module Base64Decode {
  import opened Bytes
  import opened Base64

  // The alphabet's value of a code; None outside of it.
  function Value(ch: byte): Option<sextet> {
    if 0x41 <= ch <= 0x5A then Some(ch - 0x41) else if 0x61 <= ch <= 0x7A then Some(ch - 0x61 + 26)
    else if 0x30 <= ch <= 0x39 then Some(ch - 0x30 + 52)
    else if ch == 0x2B then Some(62) else if ch == 0x2F then Some(63) else None
  }

  lemma ValueOfCode(v: sextet)
    ensures Value(Code(v)) == Some(v)
  {}

  // ------------------------------------------------------ cs_base64_decode

  const STOP: byte := 200
  const BAD: byte := 255

  // from_b64, whose table has no top bit
  function FromB64(ch: byte): byte {
    var c: byte := ch % 128;
    if c == PAD then STOP else match Value(c) case Some(v) => v case None => BAD
  }

  datatype Decoding = Decoding(data: seq<byte>, used: nat)

  predicate FourCodes(s: seq<byte>) {
    |s| >= 4 && forall k :: 0 <= k < 4 ==> FromB64(s[k]) != BAD
  }

  function Octet1(a: byte, b: byte): byte { (a * 4 + b / 16) % 256 }

  function Octet2(b: byte, c: byte): byte { b % 16 * 16 + c / 4 % 16 }

  function Octet3(c: byte, d: byte): byte { c % 4 * 64 + d % 64 }

  // The octets of four codes; fewer than three where the text stops.
  function Four(a: byte, b: byte, c: byte, d: byte): (r: seq<byte>)
    ensures |r| <= 3
  {
    if a == STOP || b == STOP then [] else if c == STOP then [Octet1(a, b)]
    else if d == STOP then [Octet1(a, b), Octet2(b, c)] else [Octet1(a, b), Octet2(b, c), Octet3(c, d)]
  }

  // What is decoded from the text, and how much of it is used up.
  function Decode(s: seq<byte>): (r: Decoding)
    ensures r.used <= |s| && |r.data| <= r.used
    decreases |s|
  {
    if !FourCodes(s) then Decoding([], 0)
    else
      var data := Four(FromB64(s[0]), FromB64(s[1]), FromB64(s[2]), FromB64(s[3]));
      if |data| < 3 then Decoding(data, 4)
      else var rest := Decode(s[4..]); Decoding(data + rest.data, 4 + rest.used)
  }

  method DecodeInto(s: seq<byte>, dst: array<byte>) returns (used: nat, decLen: nat)
    requires |Decode(s).data| < dst.Length
    modifies dst
    ensures used == Decode(s).used && decLen == |Decode(s).data|
    ensures dst[..decLen] == Decode(s).data && dst[decLen] == 0
  {
    hide FromB64, Four;
    ghost var left := Decode(s);
    used, decLen := 0, 0;
    assert s[0..] == s;
    while FourCodes(s[used..])
      invariant used <= |s| && decLen + |left.data| < dst.Length && left == Decode(s[used..])
      invariant dst[..decLen] + left.data == Decode(s).data && used + left.used == Decode(s).used
      decreases |s| - used
    {
      ghost var done := dst[..decLen];
      var a, b, c, d := FromB64(s[used]), FromB64(s[used + 1]), FromB64(s[used + 2]), FromB64(s[used + 3]);
      assert s[used..][4..] == s[used + 4..];
      used := used + 4;
      var last;
      decLen, last := DecodeFour(a, b, c, d, dst, decLen);
      if last {
        left := Decoding([], 0);
        break;
      }
      left := Decode(s[used..]);
      assert done + Four(a, b, c, d) + left.data == done + (Four(a, b, c, d) + left.data);
    }
    dst[decLen] := 0;
  }

  // One turn of the loop, up to where it breaks off.
  method DecodeFour(a: byte, b: byte, c: byte, d: byte, dst: array<byte>, at: nat) returns (n: nat, last: bool)
    requires at + |Four(a, b, c, d)| < dst.Length
    modifies dst
    ensures n == at + |Four(a, b, c, d)| && last == (n < at + 3) && dst[..n] == old(dst[..at]) + Four(a, b, c, d)
  {
    hide Octet1, Octet2, Octet3;
    if a == STOP || b == STOP {
      return at, true;
    }
    dst[at] := Octet1(a, b);
    if c == STOP {
      return at + 1, true;
    }
    dst[at + 1] := Octet2(b, c);
    if d == STOP {
      return at + 2, true;
    }
    dst[at + 2] := Octet3(c, d);
    return at + 3, false;
  }

  lemma CodeDecodes(v: sextet)
    ensures FromB64(Code(v)) == v && FromB64(PAD) == STOP
  {
    ValueOfCode(v);
  }

  lemma OctetsBack(a: byte, b: byte, c: byte)
    ensures var p, q, r, s := a / 4, a % 4 * 16 + b / 16, b % 16 * 4 + c / 64, c % 64;
            Octet1(p, q) == a && Octet2(q, r) == b && Octet3(r, s) == c
  {
    hide Octet1, Octet2, Octet3;
    Octet1Back(a, b);
    Octet2Back(a % 4, b, c);
    Octet3Back(b % 16, c);
  }

  lemma Octet1Back(a: byte, b: byte)
    ensures Octet1(a / 4, a % 4 * 16 + b / 16) == a
  {
    assert (a % 4 * 16 + b / 16) / 16 == a % 4;
  }

  lemma Octet2Back(a: nat, b: byte, c: byte)
    requires a < 4
    ensures Octet2(a * 16 + b / 16, b % 16 * 4 + c / 64) == b
  {
    assert (a * 16 + b / 16) % 16 == b / 16;
    assert (b % 16 * 4 + c / 64) / 4 == b % 16;
  }

  lemma Octet3Back(b: nat, c: byte)
    requires b < 16
    ensures Octet3(b * 4 + c / 64, c % 64) == c
  {
    assert (b * 4 + c / 64) % 4 == c / 64;
  }

  // The octets of a group come back out of its four codes.
  lemma GroupDecodes(g: seq<byte>)
    requires 1 <= |g| <= 3
    ensures var t := Group(g); FourCodes(t) && Four(FromB64(t[0]), FromB64(t[1]), FromB64(t[2]), FromB64(t[3])) == g
  {
    hide FromB64, Code, Octet1, Octet2, Octet3, Bits;
    var a, b, c := OctetAt(g, 0), OctetAt(g, 1), OctetAt(g, 2);
    GroupOf(g, a, b, c);
    CodeDecodes(a / 4);
    CodeDecodes(a % 4 * 16 + b / 16);
    CodeDecodes(b % 16 * 4 + c / 64);
    CodeDecodes(c % 64);
    OctetsBack(a, b, c);
  }

  lemma GroupFirst(g: seq<byte>, t: seq<byte>)
    requires 1 <= |g| <= 3
    ensures Decode(Group(g) + t) == if |g| < 3 then Decoding(g, 4) else Decoding(g + Decode(t).data, 4 + Decode(t).used)
  {
    hide FromB64, Group, Four;
    GroupDecodes(g);
    assert (Group(g) + t)[4..] == t;
  }

  // Decoding gives back what was encoded and uses up the whole text.
  lemma {:induction false} DecodeEncode(x: seq<byte>)
    ensures Decode(Encode(x)) == Decoding(x, |Encode(x)|)
    decreases |x|
  {
    hide Group, FourCodes;
    if x == [] {
      TooShort();
    } else if |x| <= 3 {
      GroupFirst(x, []);
      TooShort();
      assert Group(x) + [] == Group(x);
    } else {
      DecodeEncode(x[3..]);
      GroupFirst(x[..3], Encode(x[3..]));
    }
  }

  lemma TooShort()
    ensures Decode([]) == Decoding([], 0)
  {}

  // -------------------------------- str_base64_decode of ports/wifi/wifi_config.c

  // What the program takes a code for; padding and strangers count as zero.
  function Sextet(ch: byte): sextet {
    match Value(ch) case Some(v) => v case None => 0
  }

  function Triple(p: sextet, q: sextet, r: sextet, s: sextet): (t: seq<byte>)
    ensures |t| == 3
  {
    var v := p * 0x4_0000 + q * 0x1000 + r * 64 + s;
    [v / 0x1_0000 % 256, v / 0x100 % 256, v % 256]
  }

  // Three octets for every four codes.
  function Triples(s: seq<byte>): (t: seq<byte>)
    requires |s| % 4 == 0
    ensures |t| == |s| / 4 * 3
    decreases |s|
  {
    if s == [] then [] else Triple(Sextet(s[0]), Sextet(s[1]), Sextet(s[2]), Sextet(s[3])) + Triples(s[4..])
  }

  // The length less one for each of the last two characters that is padding.
  function OutLength(s: seq<byte>): (n: nat)
    requires |s| % 4 == 0 && |s| > 0
    ensures n <= |s| / 4 * 3
  {
    |s| / 4 * 3 - (if s[|s| - 1] == PAD then 1 else 0) - (if s[|s| - 2] == PAD then 1 else 0)
  }

  function Least(a: nat, b: nat): nat { if a <= b then a else b }

  // The end of the loop's turn: no more octets than there are to be.  It ends with a store
  // outside the destination when that has no room for them.
  method StoreTriple(triple: seq<byte>, decoded: array<byte>, from: nat, n: nat) returns (j: nat, within: bool)
    requires |triple| == 3 && from <= n && from <= decoded.Length
    modifies decoded
    ensures within <==> Least(from + 3, n) <= decoded.Length
    ensures within ==> j == Least(from + 3, n) && decoded[..j] == old(decoded[..from]) + triple[..j - from]
    ensures within ==> decoded[j..] == old(decoded[j..])
  {
    j, within := StoreOctet(triple[0], decoded, from, n);
    if !within {
      return;
    }
    j, within := StoreOctet(triple[1], decoded, j, n);
    if !within {
      return;
    }
    j, within := StoreOctet(triple[2], decoded, j, n);
  }

  method StoreOctet(x: byte, decoded: array<byte>, from: nat, n: nat) returns (j: nat, within: bool)
    requires from <= n && from <= decoded.Length
    modifies decoded
    ensures within <==> Least(from + 1, n) <= decoded.Length
    ensures within ==> j == Least(from + 1, n) && decoded[..j] == old(decoded[..from]) + [x][..j - from]
    ensures within ==> decoded[j..] == old(decoded[j..])
  {
    j, within := from, from == n || from < decoded.Length;
    if within && j < n {
      ghost var was := decoded[..];
      decoded[j] := x;
      Extended(was, decoded[..], j, x);
      j := j + 1;
    }
  }

  lemma Extended(was: seq<byte>, now: seq<byte>, j: nat, x: byte)
    requires j < |was| && now == was[j := x]
    ensures now[..j + 1] == was[..j] + [x] && now[j + 1..] == was[j + 1..]
  {}

  // The number of octets decoded, or a store outside the destination
  datatype Outcome = Decoded(n: nat) | OutOfBounds

  // str_base64_decode: it stores one byte more than it decodes.
  method DecodeConfig(data: seq<byte>, decoded: array<byte>) returns (r: Outcome)
    requires |data| > 0
    modifies decoded
    ensures |data| % 4 != 0 ==> r == Decoded(0) && decoded[..] == old(decoded[..])
    ensures |data| % 4 == 0 ==>
              var n := OutLength(data);
              if decoded.Length < n + 1 then r == OutOfBounds
              else r == Decoded(n) && decoded[..] == Triples(data)[..n] + [0] + old(decoded[n + 1..])
  {
    if |data| % 4 != 0 {
      return Decoded(0);
    }
    hide Triples;
    var n := |data| / 4 * 3;
    if data[|data| - 1] == PAD {
      n := n - 1;
    }
    if data[|data| - 2] == PAD {
      n := n - 1;
    }
    var within := StoreTriples(data, decoded, n);
    if !within || n == decoded.Length {
      return OutOfBounds;
    }
    Terminate(decoded, n, old(decoded[..]));
    return Decoded(n);
  }

  // decoded_data[out_len] = 0, before what was behind it
  method Terminate(decoded: array<byte>, n: nat, ghost before: seq<byte>)
    requires n < decoded.Length == |before| && decoded[n..] == before[n..]
    modifies decoded
    ensures decoded[..] == old(decoded[..n]) + [0] + before[n + 1..]
  {
    ghost var was := decoded[..];
    decoded[n] := 0;
    Extended(was, decoded[..], n, 0);
    assert before[n..][1..] == before[n + 1..];
    assert was[n + 1..] == was[n..][1..];
    assert decoded[..] == decoded[..n + 1] + decoded[n + 1..];
  }

  // The loop of str_base64_decode
  method StoreTriples(data: seq<byte>, decoded: array<byte>, n: nat) returns (within: bool)
    requires |data| % 4 == 0 && n <= |data| / 4 * 3
    modifies decoded
    ensures within <==> n <= decoded.Length
    ensures within ==> decoded[..n] == Triples(data)[..n] && decoded[n..] == old(decoded[n..])
  {
    hide Triple, Sextet, Triples;
    ghost var t := Triples(data);
    var i, j := 0, 0;
    ghost var k := 0;
    while i < |data|
      invariant i == 4 * k <= |data| && j == Least(3 * k, n) <= decoded.Length && decoded[..j] == t[..j]
      invariant decoded[j..] == old(decoded[j..])
    {
      TripleAt(data, k);
      TakeMore(t, k, n);
      var triple := Triple(Sextet(data[i]), Sextet(data[i + 1]), Sextet(data[i + 2]), Sextet(data[i + 3]));
      j, within := StoreTriple(triple, decoded, j, n);
      if !within {
        return;
      }
      i := i + 4;
      k := k + 1;
    }
    within := true;
  }

  lemma TakeMore(t: seq<byte>, k: nat, n: nat)
    requires n <= |t| && 3 * k + 3 <= |t|
    ensures var i, j := Least(3 * k, n), Least(3 * k + 3, n); t[..j] == t[..i] + t[3 * k..3 * k + 3][..j - i]
  {}

  lemma {:induction false} TripleAt(s: seq<byte>, k: nat)
    requires |s| % 4 == 0 && 4 * k < |s|
    ensures 4 * k + 4 <= |s| && 3 * k + 3 <= |Triples(s)|
    ensures var i := 4 * k;
            Triples(s)[3 * k..3 * k + 3] == Triple(Sextet(s[i]), Sextet(s[i + 1]), Sextet(s[i + 2]), Sextet(s[i + 3]))
    decreases k
  {
    hide Triple, Sextet;
    if k > 0 {
      TripleAt(s[4..], k - 1);
    }
  }

  lemma SextetsBack(a: byte, b: byte, c: byte)
    ensures Triple(a / 4, a % 4 * 16 + b / 16, b % 16 * 4 + c / 64, c % 64) == [a, b, c]
  {
    var v := (a / 4) * 0x4_0000 + (a % 4 * 16 + b / 16) * 0x1000 + (b % 16 * 4 + c / 64) * 64 + c % 64;
    assert v == a * 0x1_0000 + b * 0x100 + c;
    ThreeOctets(a, b, c);
  }

  lemma ThreeOctets(a: byte, b: byte, c: byte)
    ensures var v := a * 0x1_0000 + b * 0x100 + c; v / 0x1_0000 % 256 == a && v / 0x100 % 256 == b && v % 256 == c
  {
    var v := a * 0x1_0000 + b * 0x100 + c;
    assert v / 0x1_0000 == a;
    assert v / 0x100 == a * 0x100 + b;
  }

  lemma SextetOfCode(v: sextet)
    ensures Sextet(Code(v)) == v && Code(v) != PAD && Sextet(PAD) == 0
  {}

  lemma GroupTriple(g: seq<byte>)
    requires 1 <= |g| <= 3
    ensures var t := Group(g); Triple(Sextet(t[0]), Sextet(t[1]), Sextet(t[2]), Sextet(t[3]))[..|g|] == g
    ensures Group(g)[2] == PAD <==> |g| < 2
    ensures Group(g)[3] == PAD <==> |g| < 3
  {
    hide Triple, Bits, Sextet, Code;
    var a, b, c := OctetAt(g, 0), OctetAt(g, 1), OctetAt(g, 2);
    GroupOf(g, a, b, c);
    SextetsBack(a, b, c);
    SextetOfCode(a / 4);
    SextetOfCode(a % 4 * 16 + b / 16);
    SextetOfCode(b % 16 * 4 + c / 64);
    SextetOfCode(c % 64);
  }

  // Decoding gives back what was encoded.
  lemma {:induction false} TriplesEncode(x: seq<byte>)
    requires x != []
    ensures |Encode(x)| % 4 == 0 && OutLength(Encode(x)) == |x| && Triples(Encode(x))[..|x|] == x
    decreases |x|
  {
    hide Group, Triples;
    if |x| <= 3 {
      GroupTriple(x);
      TriplesFirst(Group(x), []);
      assert Group(x) + [] == Group(x);
    } else {
      var g, t := Group(x[..3]), Encode(x[3..]);
      GroupTriple(x[..3]);
      TriplesEncode(x[3..]);
      TriplesFirst(g, t);
      assert x[..3][..3] == x[..3];
    }
  }

  lemma TriplesFirst(g: seq<byte>, t: seq<byte>)
    requires |g| == 4 && |t| % 4 == 0
    ensures Triples(g + t) == Triple(Sextet(g[0]), Sextet(g[1]), Sextet(g[2]), Sextet(g[3])) + Triples(t)
    ensures Triples([]) == []
  {
    hide Triple, Sextet;
    assert (g + t)[4..] == t;
  }

  // write_cfg and read_cfg into the caller's buffer: the text always fits what write_cfg
  // allocates, and the configuration comes back if and only if the buffer is longer than it
  // is; into one of its own length the closing zero is stored one byte too far.
  method StoreAndRead(config: seq<byte>, buff: array<byte>) returns (text: array<byte>, r: Outcome)
    requires config != []
    modifies buff
    ensures fresh(text) && text.Length == |config| * 4 / 3 + 4
    ensures text[..|Encode(config)|] == Encode(config) && text[|Encode(config)|] == 0
    ensures if buff.Length <= |config| then r == OutOfBounds
            else r == Decoded(|config|) && buff[..] == config + [0] + old(buff[|config| + 1..])
  {
    BufferFits(|config|);
    text := new byte[|config| * 4 / 3 + 4];
    EncodeConfig(config, text);
    TriplesEncode(config);
    r := DecodeConfig(text[..|Encode(config)|], buff);
  }
}
