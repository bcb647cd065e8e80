// The SHA-1 block transform of packages/mongoose-v6.7/mongoose.c: sixteen words
// in a circle and five registers that take turns give the result of section 6.1
// of RFC 3174, which has eighty words and registers that shift.
module Sha1 {
  import opened Digest

  datatype Regs = Regs(a: bv32, b: bv32, c: bv32, d: bv32, e: bv32)

  const INITIAL := Regs(0x67452301, 0xEFCDAB89, 0x98BADCFE, 0x10325476, 0xC3D2E1F0)

  // --------------------------------------- sections 3, 5 and 6.1 of RFC 3174

  function BigEndian(b0: octet, b1: octet, b2: octet, b3: octet): bv32 {
    ((b0 as bv32) << 24) | ((b1 as bv32) << 16) | ((b2 as bv32) << 8) | (b3 as bv32)
  }

  function W(block: Block, t: nat): bv32
    requires t < 80
  {
    if t < 16 then BigEndian(block[4 * t], block[4 * t + 1], block[4 * t + 2], block[4 * t + 3])
    else Mixed(W(block, t - 3), W(block, t - 8), W(block, t - 14), W(block, t - 16))
  }

  function Mixed(p: bv32, q: bv32, r: bv32, s: bv32): bv32 {
    Rotl(p ^ q ^ r ^ s, 1)
  }

  function F(t: nat, b: bv32, c: bv32, d: bv32): bv32 {
    if t < 20 then Ch(b, c, d) else if t < 40 then Parity(b, c, d) else if t < 60 then Maj(b, c, d) else Parity(b, c, d)
  }

  function Ch(b: bv32, c: bv32, d: bv32): bv32 { (b & c) | (!b & d) }

  function Parity(b: bv32, c: bv32, d: bv32): bv32 { b ^ c ^ d }

  function Maj(b: bv32, c: bv32, d: bv32): bv32 { (b & c) | (b & d) | (c & d) }

  function K(t: nat): bv32 {
    if t < 20 then 0x5A827999 else if t < 40 then 0x6ED9EBA1 else if t < 60 then 0x8F1BBCDC else 0xCA62C1D6
  }

  function Round(r: Regs, t: nat, w: bv32): Regs {
    Regs(Temp(t, r.a, r.b, r.c, r.d, r.e, w), r.a, Rotl(r.b, 30), r.c, r.d)
  }

  function Temp(t: nat, a: bv32, b: bv32, c: bv32, d: bv32, e: bv32, w: bv32): bv32 {
    Total(Rotl(a, 5), F(t, b, c, d), e, w, K(t))
  }

  function Total(p: bv32, q: bv32, r: bv32, s: bv32, t: bv32): bv32 { p + q + r + s + t }

  function Rounds(block: Block, h: Regs, t: nat): Regs
    requires t <= 80
  {
    if t == 0 then h else Round(Rounds(block, h, t - 1), t - 1, W(block, t - 1))
  }

  function Compress(h: Regs, block: Block): Regs {
    Plus(h, Rounds(block, h, 80))
  }

  function Plus(h: Regs, r: Regs): Regs {
    Regs(h.a + r.a, h.b + r.b, h.c + r.c, h.d + r.d, h.e + r.e)
  }

  // Section 6.1 (b) bit by bit: the exclusive or of four earlier words, one place to the left.
  lemma ScheduleBits(block: Block, t: nat, j: bv6)
    requires 16 <= t < 80 && j < 32
    ensures BitOf(W(block, t), (j + 1) & 31) <==>
            ((BitOf(W(block, t - 3), j) != BitOf(W(block, t - 8), j))
             != (BitOf(W(block, t - 14), j) != BitOf(W(block, t - 16), j)))
  {
    MixedBits(W(block, t - 3), W(block, t - 8), W(block, t - 14), W(block, t - 16), j);
  }

  lemma MixedBits(p: bv32, q: bv32, r: bv32, s: bv32, j: bv6)
    requires j < 32
    ensures BitOf(Mixed(p, q, r, s), (j + 1) & 31) <==> ((BitOf(p, j) != BitOf(q, j)) != (BitOf(r, j) != BitOf(s, j)))
  {
    hide Rotl, BitOf;
    RotlBits(p ^ q ^ r ^ s, 1, j);
    XorBits(p, q, r, s, j);
  }

  lemma XorBits(p: bv32, q: bv32, r: bv32, s: bv32, j: bv6)
    requires j < 32
    ensures BitOf(p ^ q ^ r ^ s, j) <==> ((BitOf(p, j) != BitOf(q, j)) != (BitOf(r, j) != BitOf(s, j)))
  {}

  // ------------------------------------------------------------ the program

  // A word as memcpy leaves it on a little-endian machine.
  function Raw(block: Block, i: nat): bv32
    requires i < 16
  {
    BigEndian(block[4 * i + 3], block[4 * i + 2], block[4 * i + 1], block[4 * i])
  }

  function Swap(x: bv32): bv32 {
    (Rotl(x, 24) & 0xFF00FF00) | (Rotl(x, 8) & 0x00FF00FF)
  }

  lemma Swapped(b0: octet, b1: octet, b2: octet, b3: octet)
    ensures Swap(BigEndian(b3, b2, b1, b0)) == BigEndian(b0, b1, b2, b3)
  {}

  function Choose(w: bv32, x: bv32, y: bv32): bv32 { (w & (x ^ y)) ^ y }

  function Majority(w: bv32, x: bv32, y: bv32): bv32 { ((w | x) & y) | (w & x) }

  lemma Majorities(w: bv32, x: bv32, y: bv32)
    ensures ((w | x) & y) | (w & x) == (w & x) | (w & y) | (x & y)
  {}

  lemma ChooseIsCh(w: bv32, x: bv32, y: bv32)
    ensures Choose(w, x, y) == Ch(w, x, y)
  {
    Chooses(w, x, y);
  }

  lemma MajorityIsMaj(w: bv32, x: bv32, y: bv32)
    ensures Majority(w, x, y) == Maj(w, x, y)
  {
    Majorities(w, x, y);
  }

  // The circle before round i: words not yet reached are raw, the last sixteen reached are the schedule's.
  ghost predicate Circle(l: seq<bv32>, block: Block, i: nat)
    requires i <= 80
  {
    && |l| == 16
    && (forall t :: i <= t < 16 ==> l[t] == Raw(block, t))
    && (forall t :: i - 16 <= t < i && 0 <= t ==> l[t % 16] == W(block, t))
  }

  // blk0
  method Blk0(l: array<bv32>, i: nat, ghost block: Block) returns (w: bv32)
    requires i < 16 && l.Length == 16 && Circle(l[..], block, i)
    modifies l
    ensures w == W(block, i) && Circle(l[..], block, i + 1)
  {
    hide Rotl, BigEndian, Swap, Mixed;
    Swapped(block[4 * i], block[4 * i + 1], block[4 * i + 2], block[4 * i + 3]);
    l[i] := Swap(l[i]);
    w := l[i];
  }

  lemma Behind(i: nat)
    requires 16 <= i
    ensures (i + 13) % 16 == (i - 3) % 16 && (i + 8) % 16 == (i - 8) % 16 && (i + 2) % 16 == (i - 14) % 16
    ensures i % 16 == (i - 16) % 16 && forall t :: i - 16 < t < i ==> t % 16 != i % 16
  {}

  // blk
  method Blk(l: array<bv32>, i: nat, ghost block: Block) returns (w: bv32)
    requires 16 <= i < 80 && l.Length == 16 && Circle(l[..], block, i)
    modifies l
    ensures w == W(block, i) && Circle(l[..], block, i + 1)
  {
    hide Rotl, BigEndian, Mixed, Raw;
    Behind(i);
    l[i % 16] := Mixed(l[(i + 13) % 16], l[(i + 8) % 16], l[(i + 2) % 16], l[i % 16]);
    w := l[i % 16];
  }

  // What the macros R0 to R4 make of the register z.
  function Macro(i: nat, v: bv32, w: bv32, x: bv32, y: bv32, z: bv32, word: bv32): bv32 {
    if i < 20 then Increase(z, Choose(w, x, y), word, 0x5A827999, Rotl(v, 5))
    else if i < 40 then Increase(z, Parity(w, x, y), word, 0x6ED9EBA1, Rotl(v, 5))
    else if i < 60 then Increase(z, Majority(w, x, y), word, 0x8F1BBCDC, Rotl(v, 5))
    else Increase(z, Parity(w, x, y), word, 0xCA62C1D6, Rotl(v, 5))
  }

  function Increase(z: bv32, f: bv32, word: bv32, k: bv32, r: bv32): bv32 { z + (f + word + k + r) }

  lemma Reordered(z: bv32, f: bv32, word: bv32, k: bv32, r: bv32)
    ensures Increase(z, f, word, k, r) == Total(r, f, z, word, k)
  {}

  lemma MacroIsTemp(i: nat, v: bv32, w: bv32, x: bv32, y: bv32, z: bv32, word: bv32)
    ensures Macro(i, v, w, x, y, z, word) == Temp(i, v, w, x, y, z, word)
  {
    hide Rotl, Ch, Parity, Maj, Choose, Majority, Increase, Total;
    Reordered(z, F(i, w, x, y), word, K(i), Rotl(v, 5));
    ChooseIsCh(w, x, y);
    MajorityIsMaj(w, x, y);
  }

  // One of the macros: the registers come in the order of this round.
  method Turn(l: array<bv32>, i: nat, v: bv32, w: bv32, x: bv32, y: bv32, z: bv32, ghost block: Block, ghost h: Regs)
    returns (w': bv32, z': bv32)
    requires i < 80 && l.Length == 16 && Circle(l[..], block, i) && Regs(v, w, x, y, z) == Rounds(block, h, i)
    modifies l
    ensures Circle(l[..], block, i + 1) && Regs(z', v, w', x, y) == Rounds(block, h, i + 1)
  {
    hide Rotl, Circle, Macro, Temp, W;
    var word: bv32;
    if i < 16 {
      word := Blk0(l, i, block);
    } else {
      word := Blk(l, i, block);
    }
    MacroIsTemp(i, v, w, x, y, z, word);
    z' := Macro(i, v, w, x, y, z, word);
    w' := Rotl(w, 30);
  }

  // cs_sha1_transform; the eighty macro calls come in sixteen groups of the same five.
  method Transform(state: Regs, buffer: Block) returns (r: Regs)
    ensures r == Compress(state, buffer)
  {
    hide Circle, Rounds, Plus;
    var l := Load(buffer);
    var a, b, c, d, e := state.a, state.b, state.c, state.d, state.e;
    Start(buffer, state);
    for k := 0 to 16
      invariant Circle(l[..], buffer, 5 * k) && Regs(a, b, c, d, e) == Rounds(buffer, state, 5 * k)
    {
      b, e := Turn(l, 5 * k, a, b, c, d, e, buffer, state);
      a, d := Turn(l, 5 * k + 1, e, a, b, c, d, buffer, state);
      e, c := Turn(l, 5 * k + 2, d, e, a, b, c, buffer, state);
      d, b := Turn(l, 5 * k + 3, c, d, e, a, b, buffer, state);
      c, a := Turn(l, 5 * k + 4, b, c, d, e, a, buffer, state);
    }
    r := Plus(state, Regs(a, b, c, d, e));
  }

  lemma Start(block: Block, h: Regs)
    ensures Rounds(block, h, 0) == h
  {}

  // memcpy into the words
  method Load(buffer: Block) returns (l: array<bv32>)
    ensures fresh(l) && l.Length == 16 && Circle(l[..], buffer, 0)
  {
    hide BigEndian;
    l := new bv32[16];
    for i := 0 to 16
      invariant forall t :: 0 <= t < i ==> l[t] == Raw(buffer, t)
    {
      l[i] := Raw(buffer, i);
    }
  }
}
