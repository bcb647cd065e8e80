// cs_sha1_init, cs_sha1_update and cs_sha1_final of
// packages/mongoose-v6.7/mongoose.c: however a message is cut into calls, the
// digest is that of sections 4 and 6 of RFC 3174.
module Sha1Stream {
  import opened Bytes
  import opened Digest
  import opened Sha1

  // ------------------------------------------- what RFC 3174 says of a message

  function BigEndian32(n: u32): seq<octet> {
    [ByteOf(n / 0x100_0000), ByteOf(n / 0x1_0000), ByteOf(n / 0x100), ByteOf(n)]
  }

  // The length in bits; a message too long for RFC 3174 shows its low 64 bits.
  function Length64(n: nat): (s: seq<octet>)
    ensures |s| == 8
  {
    BigEndian32(8 * n / TWO32 % TWO32) + BigEndian32(8 * n % TWO32)
  }

  function Padded(m: seq<octet>): seq<octet> {
    m + Stop(|m|) + Length64(|m|)
  }

  function Octets(w: bv32): (s: seq<octet>)
    ensures |s| == 4
  {
    [((w >> 24) & 255) as bv8, ((w >> 16) & 255) as bv8, ((w >> 8) & 255) as bv8, (w & 255) as bv8]
  }

  function Hash(m: seq<octet>): seq<octet> {
    var r := Fold(Compress, INITIAL, Padded(m));
    Octets(r.a) + Octets(r.b) + Octets(r.c) + Octets(r.d) + Octets(r.e)
  }

  // Section 4: the message, the bit 1, zeros, and the length in bits, its highest octet first.
  lemma PaddingMeans(m: seq<octet>)
    ensures var p := Padded(m); var n := |p|;
            && |m| + 9 <= n < |m| + 73 && n % 64 == 0 && m <= p && p[|m|] == 0x80
            && forall i :: |m| < i < n - 8 ==> p[i] == 0
    ensures var p := Padded(m); var n, bits := |p|, 8 * |m|;
            && n >= 8
            && p[n - 8] == (bits / 0x100_0000_0000_0000 % 256) as octet
            && p[n - 7] == (bits / 0x1_0000_0000_0000 % 256) as octet
            && p[n - 6] == (bits / 0x100_0000_0000 % 256) as octet
            && p[n - 5] == (bits / 0x1_0000_0000 % 256) as octet
            && p[n - 4] == (bits / 0x100_0000 % 256) as octet
            && p[n - 3] == (bits / 0x1_0000 % 256) as octet
            && p[n - 2] == (bits / 0x100 % 256) as octet
            && p[n - 1] == (bits % 256) as octet
  {
    hide Length64;
    PaddedFits(m);
    LengthOctets(|m|);
    var p, s := Padded(m), Length64(|m|);
    assert forall k :: 0 <= k < 8 ==> p[|p| - 8 + k] == s[k];
  }

  lemma LengthOctets(n: nat)
    ensures var s, bits := Length64(n), 8 * n;
            && s[0] == (bits / 0x100_0000_0000_0000 % 256) as octet
            && s[1] == (bits / 0x1_0000_0000_0000 % 256) as octet
            && s[2] == (bits / 0x100_0000_0000 % 256) as octet
            && s[3] == (bits / 0x1_0000_0000 % 256) as octet
            && s[4] == (bits / 0x100_0000 % 256) as octet
            && s[5] == (bits / 0x1_0000 % 256) as octet
            && s[6] == (bits / 0x100 % 256) as octet
            && s[7] == (bits % 256) as octet
  {
    OctetsOf(8 * n);
    OctetsOf(8 * n / TWO32);
    HighOctets(8 * n);
  }

  // Padding fills whole blocks, and adds less than two.
  lemma PaddedFits(m: seq<octet>)
    ensures |Padded(m)| % BLOCK == 0 && |m| + 9 <= |Padded(m)| < |m| + 9 + BLOCK
  {
    hide Length64, Stop;
  }

  // ------------------------------------------------------------ the context

  class Context {
    var state: Regs
    var low: u32
    var high: u32
    const buffer: array<octet>

    // Every octet taken in so far.
    ghost var message: seq<octet>

    ghost predicate Valid()
      reads this, buffer
    {
      buffer.Length == BLOCK && Counts(low, high, message) && Holds(Compress, INITIAL, message, state, buffer[..])
    }

    // cs_sha1_init
    constructor ()
      ensures Valid() && message == [] && fresh(buffer)
    {
      hide Holds, Counts;
      state, low, high, buffer, message := INITIAL, 0, 0, new octet[BLOCK], [];
      new;
      HoldsNothing(Compress, INITIAL, buffer[..]);
      CountsNothing();
    }

    // cs_sha1_update
    method Update(data: seq<octet>)
      requires Valid() && |data| + BLOCK < TWO32
      modifies this, buffer
      ensures Valid() && message == old(message) + data
    {
      hide Counts, Holds;
      Position(low, high, message);
      CountsOn(low, high, message, data);
      var j := low / 8 % BLOCK;
      low, high := NewLow(low, |data|), NewHigh(low, high, |data|);
      var i := 0;
      if j + |data| > 63 {
        i := Blocks(j, data);
        j := 0;
      }
      assert data[..0] == [] && message + [] == message;
      Keep(message + data[..i], j, data[i..]);
      assert message + data[..i] + data[i..] == message + data;
      message := message + data;
    }

    // The blocks that are complete with this data.
    method Blocks(j: nat, data: seq<octet>) returns (i: nat)
      requires buffer.Length == BLOCK && Holds(Compress, INITIAL, message, state, buffer[..])
      requires j == |message| % BLOCK && j + |data| >= BLOCK
      modifies this`state, buffer
      ensures i <= |data| < i + BLOCK && (|message| + i) % BLOCK == 0
      ensures Holds(Compress, INITIAL, message + data[..i], state, buffer[..])
    {
      hide Holds;
      i := BLOCK - j;
      ghost var before := buffer[..];
      CopyInto(buffer, j, data[..i]);
      assert buffer[..] == before[..j] + data[..i];
      HoldsBlock(Compress, INITIAL, message, state, before, data[..i], buffer[..]);
      state := Transform(state, buffer[..]);
      while i + 63 < |data|
        invariant i <= |data| && (|message| + i) % BLOCK == 0
        invariant Holds(Compress, INITIAL, message + data[..i], state, buffer[..])
      {
        HoldsBlock(Compress, INITIAL, message + data[..i], state, buffer[..], data[i..i + BLOCK], buffer[..]);
        OnePieceMore(message, data, i, i + BLOCK);
        NextBlock(|message|, i);
        assert buffer[..][..0] + data[i..i + BLOCK] == data[i..i + BLOCK];
        state := Transform(state, data[i..i + BLOCK]);
        i := i + BLOCK;
      }
    }

    // The rest goes to the buffer.
    method Keep(ghost m: seq<octet>, j: nat, data: seq<octet>)
      requires buffer.Length == BLOCK && Holds(Compress, INITIAL, m, state, buffer[..])
      requires j == |m| % BLOCK && j + |data| < BLOCK
      modifies buffer
      ensures Holds(Compress, INITIAL, m + data, state, buffer[..])
    {
      hide Holds;
      ghost var before := buffer[..];
      CopyInto(buffer, j, data);
      assert buffer[..][..j + |data|] == before[..j] + data;
      HoldsMore(Compress, INITIAL, m, state, before, data, buffer[..]);
    }

    // cs_sha1_final
    method Final() returns (digest: seq<octet>)
      requires Valid()
      modifies this, buffer
      ensures digest == Hash(old(message))
    {
      hide Counts, Holds, Length64;
      ghost var m := message;
      var finalcount := BigEndian32(high) + BigEndian32(low);
      LengthWords(low, high, m);
      Update([0x80]);
      Position(low, high, message);
      ghost var k := 0;
      while low / 8 % BLOCK * 8 != 448
        invariant Valid() && k <= (55 - |m|) % BLOCK && message == m + [0x80] + Zeros(k)
        invariant low / 8 % BLOCK == |message| % BLOCK
        decreases (55 - |m|) % BLOCK - k
      {
        ZerosDue(|m|, k);
        Update([0]);
        Position(low, high, message);
        assert m + [0x80] + Zeros(k) + [0] == m + [0x80] + Zeros(k + 1);
        k := k + 1;
      }
      ZerosDue(|m|, k);
      assert m + [0x80] + Zeros(k) == m + Stop(|m|);
      Update(finalcount);
      PaddedFits(m);
      Finished(Compress, INITIAL, message, state, buffer[..]);
      digest := Octets(state.a) + Octets(state.b) + Octets(state.c) + Octets(state.d) + Octets(state.e);
    }
  }

  lemma LengthWords(low: u32, high: u32, m: seq<octet>)
    requires Counts(low, high, m)
    ensures BigEndian32(high) + BigEndian32(low) == Length64(|m|)
  {
    hide Be32;
    WordsOf(8 * |m|, low, high);
  }

  // Any cut of a message gives its hash.
  method HashPieces(pieces: seq<seq<octet>>) returns (digest: seq<octet>)
    requires forall i :: 0 <= i < |pieces| ==> |pieces[i]| + BLOCK < TWO32
    ensures digest == Hash(Concat(pieces))
  {
    hide Counts, Holds, Hash;
    var c := new Context();
    for i := 0 to |pieces|
      invariant c.Valid() && fresh(c) && fresh(c.buffer) && c.message == Concat(pieces[..i])
    {
      c.Update(pieces[i]);
      assert pieces[..i + 1][..i] == pieces[..i];
    }
    assert pieces[..|pieces|] == pieces;
    digest := c.Final();
  }
}
