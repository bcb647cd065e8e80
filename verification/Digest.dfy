// What SHA-1 and MD5 in packages/mongoose-v6.7/mongoose.c share: 64-octet
// blocks folded into a state, and a bit count kept in two 32-bit words.
module Digest {
  import opened Bytes

  type octet = bv8

  const BLOCK := 64

  type Block = s: seq<octet> | |s| == 64 witness seq(64, _ => 0)

  // The state after every whole block of the message; a shorter rest is left out.
  function Fold<S>(f: (S, Block) -> S, h: S, s: seq<octet>): S
    decreases |s|
  {
    if |s| < BLOCK then h else Fold(f, f(h, s[..BLOCK]), s[BLOCK..])
  }

  lemma {:induction false} FoldAppend<S>(f: (S, Block) -> S, h: S, s: seq<octet>, t: seq<octet>)
    requires |s| % BLOCK == 0
    ensures Fold(f, h, s + t) == Fold(f, Fold(f, h, s), t)
    decreases |s|
  {
    if |s| < BLOCK {
      assert s + t == t;
    } else {
      assert (s + t)[..BLOCK] == s[..BLOCK] && (s + t)[BLOCK..] == s[BLOCK..] + t;
      FoldAppend(f, f(h, s[..BLOCK]), s[BLOCK..], t);
    }
  }

  lemma FoldOne<S>(f: (S, Block) -> S, h: S, b: Block)
    ensures Fold(f, h, b) == f(h, b)
  {
    assert b[..BLOCK] == b && b[BLOCK..] == [];
  }

  // The whole blocks of a message, and what is left.
  function Whole(m: seq<octet>): (s: seq<octet>)
    ensures |s| % BLOCK == 0
  {
    m[..|m| / BLOCK * BLOCK]
  }

  function Rest(m: seq<octet>): (s: seq<octet>)
    ensures |s| == |m| % BLOCK
  {
    m[|m| / BLOCK * BLOCK..]
  }

  // A context has taken in m: the state, and the rest held back in the buffer.
  ghost predicate Holds<S(!new)>(f: (S, Block) -> S, h: S, m: seq<octet>, state: S, buffer: seq<octet>) {
    |buffer| == BLOCK && state == Fold(f, h, Whole(m)) && buffer[..|m| % BLOCK] == Rest(m)
  }

  lemma HoldsNothing<S(!new)>(f: (S, Block) -> S, h: S, buffer: seq<octet>)
    requires |buffer| == BLOCK
    ensures Holds(f, h, [], h, buffer)
  {}

  // Nothing but a longer rest.
  lemma HoldsMore<S(!new)>(f: (S, Block) -> S, h: S, m: seq<octet>, state: S, buffer: seq<octet>,
                           data: seq<octet>, buffer': seq<octet>)
    requires Holds(f, h, m, state, buffer) && |m| % BLOCK + |data| < BLOCK && |buffer'| == BLOCK
    requires buffer'[..|m| % BLOCK + |data|] == buffer[..|m| % BLOCK] + data
    ensures Holds(f, h, m + data, state, buffer')
  {
    var n := |m| / BLOCK * BLOCK;
    assert |m + data| / BLOCK == |m| / BLOCK && |m + data| % BLOCK == |m| % BLOCK + |data|;
    assert (m + data)[..n] == m[..n] && (m + data)[n..] == m[n..] + data;
  }

  // A block is complete.
  lemma HoldsBlock<S(!new)>(f: (S, Block) -> S, h: S, m: seq<octet>, state: S, buffer: seq<octet>,
                            data: seq<octet>, buffer': seq<octet>)
    requires Holds(f, h, m, state, buffer) && |m| % BLOCK + |data| == BLOCK && |buffer'| == BLOCK
    ensures Holds(f, h, m + data, f(state, buffer[..|m| % BLOCK] + data), buffer')
  {
    var n := |m| / BLOCK * BLOCK;
    var b: Block := buffer[..|m| % BLOCK] + data;
    assert |m + data| == n + BLOCK;
    assert Whole(m + data) == m + data == Whole(m) + b;
    FoldAppend(f, h, Whole(m), b);
    FoldOne(f, Fold(f, h, Whole(m)), b);
  }

  lemma Finished<S(!new)>(f: (S, Block) -> S, h: S, m: seq<octet>, state: S, buffer: seq<octet>)
    requires Holds(f, h, m, state, buffer) && |m| % BLOCK == 0
    ensures state == Fold(f, h, m)
  {
    assert Whole(m) == m;
  }

  // ------------------------------------------------------------ bit count

  const TWO32 := 0x1_0000_0000
  const TWO64 := 0x1_0000_0000_0000_0000

  // The two words are the low 64 bits of the message's length in bits.
  ghost predicate Counts(low: u32, high: u32, m: seq<octet>) {
    high * TWO32 + low == 8 * |m| % TWO64
  }

  lemma CountsNothing()
    ensures Counts(0, 0, [])
  {}

  lemma WordsOf(bits: nat, low: u32, high: u32)
    requires high * TWO32 + low == bits % TWO64
    ensures bits / TWO32 % TWO32 == high && bits % TWO32 == low
  {
    var q := bits / TWO64;
    assert bits == q * TWO64 + bits % TWO64;
    assert bits == (q * TWO32 + high) * TWO32 + low;
    assert bits / TWO32 == q * TWO32 + high;
  }

  // The words after len more octets: shifts and sums are cut to 32 bits, a carry
  // shows as a low word that got smaller.
  function NewLow(low: u32, len: u32): u32 {
    (low + len * 8 % TWO32) % TWO32
  }

  function NewHigh(low: u32, high: u32, len: u32): u32 {
    ((if NewLow(low, len) < low then high + 1 else high) + len / 0x2000_0000) % TWO32
  }

  lemma CountsOn(low: u32, high: u32, m: seq<octet>, data: seq<octet>)
    requires Counts(low, high, m) && |data| < TWO32
    ensures Counts(NewLow(low, |data|), NewHigh(low, high, |data|), m + data)
  {
    var len := |data|;
    var x, y := len * 8 % TWO32, len / 0x2000_0000;
    assert len * 8 == y * TWO32 + x;
    var carry := if low + x >= TWO32 then 1 else 0;
    assert NewLow(low, len) == low + x - carry * TWO32;
    var top := high + carry + y;
    assert NewHigh(low, high, len) == top % TWO32;
    SumMod(8 * |m|, len * 8);
    TopMod(top, NewLow(low, len));
  }

  lemma SumMod(a: nat, b: nat)
    ensures (a + b) % TWO64 == (a % TWO64 + b) % TWO64
  {}

  lemma TopMod(top: nat, low: u32)
    ensures (top * TWO32 + low) % TWO64 == top % TWO32 * TWO32 + low
  {
    assert top == top / TWO32 * TWO32 + top % TWO32;
    var q := top / TWO32;
    assert top * TWO32 + low == q * TWO64 + (top % TWO32 * TWO32 + low);
  }

  function Zeros(n: nat): (s: seq<octet>)
    ensures |s| == n
  {
    seq(n, _ => 0)
  }

  // A bit, then zeros up to 8 octets short of a whole number of blocks.
  function Stop(n: nat): (s: seq<octet>)
    ensures |s| >= 1 && (n + |s| + 8) % BLOCK == 0 && |s| <= BLOCK
  {
    [0x80] + Zeros((55 - n) % BLOCK)
  }

  // Zeros are due until 56 octets of a block are filled.
  lemma ZerosDue(n: nat, k: nat)
    requires k <= (55 - n) % BLOCK
    ensures (n + 1 + k) % BLOCK == 56 <==> k == (55 - n) % BLOCK
  {}

  // Where the stop ends: in this block, or in the next when there is no room for the length.
  lemma StopSplits(n: nat)
    ensures var count := 63 - n % BLOCK;
            Stop(n) == if count < 8 then [0x80] + Zeros(count) + Zeros(56) else [0x80] + Zeros(count - 8)
  {
    var count := 63 - n % BLOCK;
    assert (55 - n) % BLOCK == if count < 8 then count + 56 else count - 8;
  }

  lemma FillsBlock(n: nat)
    ensures (n + (BLOCK - n % BLOCK)) % BLOCK == 0
  {}

  lemma NextBlock(n: nat, i: nat)
    requires (n + i) % BLOCK == 0
    ensures (n + (i + BLOCK)) % BLOCK == 0
  {}

  lemma OnePieceMore(m: seq<octet>, data: seq<octet>, i: nat, j: nat)
    requires i <= j <= |data|
    ensures m + data[..i] + data[i..j] == m + data[..j]
  {
    assert data[..i] + data[i..j] == data[..j];
  }

  // Where in the buffer the next octet goes.
  lemma Position(low: u32, high: u32, m: seq<octet>)
    requires Counts(low, high, m)
    ensures low / 8 % BLOCK == |m| % BLOCK
  {
    ShiftedMod(|m|, low, high);
  }

  lemma ShiftedMod(n: nat, low: u32, high: u32)
    requires high * TWO32 + low == 8 * n % TWO64
    ensures low / 8 % BLOCK == n % BLOCK
  {
    var q := 8 * n / TWO64;
    var y := q * 0x80_0000_0000_0000 + high * 0x80_0000;
    assert 8 * n == q * TWO64 + 8 * n % TWO64;
    assert low == 8 * (n - BLOCK * y);
    assert low / 8 == n - BLOCK * y;
    SameMod(n, y);
  }

  lemma SameMod(n: nat, y: nat)
    requires BLOCK * y <= n
    ensures (n - BLOCK * y) % BLOCK == n % BLOCK
  {}

  // memcpy into the buffer
  method CopyInto(a: array<octet>, at: nat, s: seq<octet>)
    requires at + |s| <= a.Length
    modifies a
    ensures a[..at + |s|] == old(a[..at]) + s && a[at + |s|..] == old(a[at + |s|..])
  {
    forall i | 0 <= i < |s| {
      a[at + i] := s[i];
    }
  }

  // One octet of a number
  function ByteOf(n: nat): octet { (n % 256) as bv8 }

  function Rotl(x: bv32, n: bv6): bv32
    requires n < 32
  {
    (x << n) | (x >> (32 - n))
  }

  // Bit j of a word
  function BitOf(x: bv32, j: bv6): bool
    requires j < 32
  {
    (x >> j) & 1 == 1
  }

  // A rotation by n takes bit j to bit j + n, counted modulo 32.
  lemma RotlBits(x: bv32, n: bv6, j: bv6)
    requires n < 32 && j < 32
    ensures BitOf(Rotl(x, n), (j + n) & 31) == BitOf(x, j)
  {
    hide BitOf;
    ShiftedBits(x, n, j);
  }

  lemma ShiftedBits(x: bv32, n: bv6, j: bv6)
    requires n < 32 && j < 32
    ensures BitOf((x << n) | (x >> (32 - n)), (j + n) & 31) == BitOf(x, j)
  {}

  // The octets of the low word of a number, and those of the next
  lemma OctetsOf(n: nat)
    ensures n % TWO32 % 256 == n % 256 && n % TWO32 / 0x100 % 256 == n / 0x100 % 256
    ensures n % TWO32 / 0x1_0000 % 256 == n / 0x1_0000 % 256
    ensures n % TWO32 / 0x100_0000 % 256 == n / 0x100_0000 % 256
  {
    var q, r := n / TWO32, n % TWO32;
    assert n == q * TWO32 + r;
    Lower(q * 0x100_0000, r, 0x100);
    Lower(q * 0x1_0000, r, 0x1_0000);
    Lower(q * 0x100, r, 0x100_0000);
    LastOctet(q * 0x100_0000, r);
    LastOctet(q * 0x1_0000, r / 0x100);
    LastOctet(q * 0x100, r / 0x1_0000);
    LastOctet(q, r / 0x100_0000);
  }

  lemma LastOctet(a: nat, b: nat)
    ensures (a * 256 + b) % 256 == b % 256
  {}

  lemma Lower(a: nat, r: nat, w: nat)
    requires w > 0
    ensures (a * w + r) / w == a + r / w
  {
    var d, m := r / w, r % w;
    assert a * w + r == (a + d) * w + m;
    QuotientIs(a * w + r, w, a + d, m);
  }

  lemma QuotientIs(n: nat, w: nat, d: nat, m: nat)
    requires w > 0 && n == d * w + m && m < w
    ensures n / w == d
  {
    var e := n / w;
    assert n == e * w + n % w;
    if e < d {
      Grow(e + 1, d, w);
    } else if d < e {
      Grow(d + 1, e, w);
    }
  }

  lemma Grow(a: nat, b: nat, w: nat)
    requires a <= b
    ensures a * w <= b * w
  {}

  lemma HighOctets(n: nat)
    ensures n / TWO32 / 0x100 == n / 0x100_0000_0000
    ensures n / TWO32 / 0x1_0000 == n / 0x1_0000_0000_0000
    ensures n / TWO32 / 0x100_0000 == n / 0x100_0000_0000_0000
  {}

  // The cheaper form in which both programs write the function that chooses by x.
  lemma Chooses(x: bv32, y: bv32, z: bv32)
    ensures z ^ (x & (y ^ z)) == (x & y) | (!x & z)
  {}
}
