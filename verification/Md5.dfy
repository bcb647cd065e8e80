// The MD5 block transform of packages/mongoose-v6.7/mongoose.c: four registers
// that take turns and rewritten mixing functions give the result of section 3.4
// of RFC 1321, with its own functions and registers that shift.
module Md5 {
  import opened Digest

  datatype Regs = Regs(a: bv32, b: bv32, c: bv32, d: bv32)

  const INITIAL := Regs(0x67452301, 0xEFCDAB89, 0x98BADCFE, 0x10325476)

  // ------------------------------------- sections 2, 3.3 and 3.4 of RFC 1321

  // A word of the block; the least octet comes first.
  function X(block: Block, k: nat): bv32
    requires k < 16
  {
    (block[4 * k] as bv32) | ((block[4 * k + 1] as bv32) << 8)
    | ((block[4 * k + 2] as bv32) << 16) | ((block[4 * k + 3] as bv32) << 24)
  }

  function F(x: bv32, y: bv32, z: bv32): bv32 { (x & y) | (!x & z) }

  function G(x: bv32, y: bv32, z: bv32): bv32 { (x & z) | (y & !z) }

  function H(x: bv32, y: bv32, z: bv32): bv32 { x ^ y ^ z }

  function I(x: bv32, y: bv32, z: bv32): bv32 { y ^ (x | !z) }

  function Mix(i: nat, x: bv32, y: bv32, z: bv32): bv32 {
    if i < 16 then F(x, y, z) else if i < 32 then G(x, y, z) else if i < 48 then H(x, y, z) else I(x, y, z)
  }

  // Which word a step takes, and how far it rotates.
  function Pick(i: nat): (k: nat)
    ensures k < 16
  {
    (if i < 16 then i else if i < 32 then 5 * i + 1 else if i < 48 then 3 * i + 5 else 7 * i) % 16
  }

  function Shift(i: nat): (s: bv6)
    ensures s < 32
  {
    var s := if i < 16 then [7, 12, 17, 22] else if i < 32 then [5, 9, 14, 20]
             else if i < 48 then [4, 11, 16, 23] else [6, 10, 15, 21];
    s[i % 4]
  }

  function T(i: nat): bv32
    requires i < 64
  {
    if i < 16 then T1(i) else if i < 32 then T2(i - 16) else if i < 48 then T3(i - 32) else T4(i - 48)
  }

  function T1(i: nat): bv32
    requires i < 16
  {
    match i
    case 0 => 0xD76AA478
    case 1 => 0xE8C7B756
    case 2 => 0x242070DB
    case 3 => 0xC1BDCEEE
    case 4 => 0xF57C0FAF
    case 5 => 0x4787C62A
    case 6 => 0xA8304613
    case 7 => 0xFD469501
    case 8 => 0x698098D8
    case 9 => 0x8B44F7AF
    case 10 => 0xFFFF5BB1
    case 11 => 0x895CD7BE
    case 12 => 0x6B901122
    case 13 => 0xFD987193
    case 14 => 0xA679438E
    case _ => 0x49B40821
  }

  function T2(i: nat): bv32
    requires i < 16
  {
    match i
    case 0 => 0xF61E2562
    case 1 => 0xC040B340
    case 2 => 0x265E5A51
    case 3 => 0xE9B6C7AA
    case 4 => 0xD62F105D
    case 5 => 0x02441453
    case 6 => 0xD8A1E681
    case 7 => 0xE7D3FBC8
    case 8 => 0x21E1CDE6
    case 9 => 0xC33707D6
    case 10 => 0xF4D50D87
    case 11 => 0x455A14ED
    case 12 => 0xA9E3E905
    case 13 => 0xFCEFA3F8
    case 14 => 0x676F02D9
    case _ => 0x8D2A4C8A
  }

  function T3(i: nat): bv32
    requires i < 16
  {
    match i
    case 0 => 0xFFFA3942
    case 1 => 0x8771F681
    case 2 => 0x6D9D6122
    case 3 => 0xFDE5380C
    case 4 => 0xA4BEEA44
    case 5 => 0x4BDECFA9
    case 6 => 0xF6BB4B60
    case 7 => 0xBEBFBC70
    case 8 => 0x289B7EC6
    case 9 => 0xEAA127FA
    case 10 => 0xD4EF3085
    case 11 => 0x04881D05
    case 12 => 0xD9D4D039
    case 13 => 0xE6DB99E5
    case 14 => 0x1FA27CF8
    case _ => 0xC4AC5665
  }

  function T4(i: nat): bv32
    requires i < 16
  {
    match i
    case 0 => 0xF4292244
    case 1 => 0x432AFF97
    case 2 => 0xAB9423A7
    case 3 => 0xFC93A039
    case 4 => 0x655B59C3
    case 5 => 0x8F0CCC92
    case 6 => 0xFFEFF47D
    case 7 => 0x85845DD1
    case 8 => 0x6FA87E4F
    case 9 => 0xFE2CE6E0
    case 10 => 0xA3014314
    case 11 => 0x4E0811A1
    case 12 => 0xF7537E82
    case 13 => 0xBD3AF235
    case 14 => 0x2AD7D2BB
    case _ => 0xEB86D391
  }

  // a = b + ((a + F(b,c,d) + X[k] + T[i]) <<< s)
  function Stepped(i: nat, a: bv32, b: bv32, c: bv32, d: bv32, x: bv32): bv32
    requires i < 64
  {
    Add(b, Rotl(Sum(a, Mix(i, b, c, d), x, T(i)), Shift(i)))
  }

  function Sum(p: bv32, q: bv32, r: bv32, s: bv32): bv32 { p + q + r + s }

  function Add(p: bv32, q: bv32): bv32 { p + q }

  function Steps(block: Block, h: Regs, i: nat): Regs
    requires i <= 64
  {
    if i == 0 then h
    else
      var r := Steps(block, h, i - 1);
      Regs(r.d, Stepped(i - 1, r.a, r.b, r.c, r.d, X(block, Pick(i - 1))), r.b, r.c)
  }

  function Compress(h: Regs, block: Block): Regs {
    Plus(h, Steps(block, h, 64))
  }

  function Plus(h: Regs, r: Regs): Regs {
    Regs(h.a + r.a, h.b + r.b, h.c + r.c, h.d + r.d)
  }

  // ------------------------------------------------------------ the program

  function F1(x: bv32, y: bv32, z: bv32): bv32 { z ^ (x & (y ^ z)) }

  function F2(x: bv32, y: bv32, z: bv32): bv32 { F1(z, x, y) }

  function Chosen(i: nat, x: bv32, y: bv32, z: bv32): bv32 {
    if i < 16 then F1(x, y, z) else if i < 32 then F2(x, y, z) else if i < 48 then H(x, y, z) else I(x, y, z)
  }

  lemma Commutes(x: bv32, y: bv32, z: bv32)
    ensures (z & x) | (!z & y) == (x & z) | (y & !z)
  {}

  lemma F1IsF(x: bv32, y: bv32, z: bv32)
    ensures F1(x, y, z) == F(x, y, z)
  {
    Chooses(x, y, z);
  }

  lemma F2IsG(x: bv32, y: bv32, z: bv32)
    ensures F2(x, y, z) == G(x, y, z)
  {
    Chooses(z, x, y);
    Commutes(x, y, z);
  }

  // MD5STEP
  function Macro(i: nat, w: bv32, x: bv32, y: bv32, z: bv32, word: bv32): bv32
    requires i < 64
  {
    Add(Rotl(Increase(w, Chosen(i, x, y, z), word, T(i)), Shift(i)), x)
  }

  // w += f(x, y, z) + data, the data being a word plus a constant
  function Increase(w: bv32, f: bv32, word: bv32, t: bv32): bv32 { w + (f + (word + t)) }

  lemma Reordered(w: bv32, f: bv32, word: bv32, t: bv32)
    ensures Increase(w, f, word, t) == Sum(w, f, word, t)
  {}

  lemma AddCommutes(p: bv32, q: bv32)
    ensures Add(p, q) == Add(q, p)
  {}

  lemma MacroIsStepped(i: nat, w: bv32, x: bv32, y: bv32, z: bv32, word: bv32)
    requires i < 64
    ensures Macro(i, w, x, y, z, word) == Stepped(i, w, x, y, z, word)
  {
    hide Rotl, T, Shift, F, G, H, I, F1, F2, Sum, Add, Increase;
    F1IsF(x, y, z);
    F2IsG(x, y, z);
    Reordered(w, Mix(i, x, y, z), word, T(i));
    AddCommutes(x, Rotl(Sum(w, Mix(i, x, y, z), word, T(i)), Shift(i)));
  }

  // One of the macros: the registers come in the order of this step.
  method Turn(block: Block, i: nat, w: bv32, x: bv32, y: bv32, z: bv32, ghost h: Regs) returns (w': bv32)
    requires i < 64 && Regs(w, x, y, z) == Steps(block, h, i)
    ensures Regs(z, w', x, y) == Steps(block, h, i + 1)
  {
    hide Macro, Stepped, X, Pick;
    MacroIsStepped(i, w, x, y, z, X(block, Pick(i)));
    w' := Macro(i, w, x, y, z, X(block, Pick(i)));
  }

  // MD5Transform; the sixty-four macro calls come in sixteen groups of the same four.
  method Transform(state: Regs, block: Block) returns (r: Regs)
    ensures r == Compress(state, block)
  {
    hide Steps, Plus;
    var a, b, c, d := state.a, state.b, state.c, state.d;
    Start(block, state);
    for k := 0 to 16
      invariant Regs(a, b, c, d) == Steps(block, state, 4 * k)
    {
      a := Turn(block, 4 * k, a, b, c, d, state);
      d := Turn(block, 4 * k + 1, d, a, b, c, state);
      c := Turn(block, 4 * k + 2, c, d, a, b, state);
      b := Turn(block, 4 * k + 3, b, c, d, a, state);
    }
    r := Plus(state, Regs(a, b, c, d));
  }

  lemma Start(block: Block, h: Regs)
    ensures Steps(block, h, 0) == h
  {}
}
