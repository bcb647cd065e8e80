// MD5_Init, MD5_Update and MD5_Final of packages/mongoose-v6.7/mongoose.c:
// however a message is cut into calls, the digest is that of sections 3.1 to
// 3.5 of RFC 1321.
module Md5Stream {
  import opened Bytes
  import opened Digest
  import opened Md5

  // ------------------------------------------- what RFC 1321 says of a message

  function Le32(n: u32): (s: seq<octet>)
    ensures |s| == 4
  {
    [ByteOf(n), ByteOf(n / 0x100), ByteOf(n / 0x1_0000), ByteOf(n / 0x100_0000)]
  }

  // The low 64 bits of the length in bits, low word first.
  function Length64(n: nat): (s: seq<octet>)
    ensures |s| == 8
  {
    Le32(8 * n % TWO32) + Le32(8 * n / TWO32 % TWO32)
  }

  function Padded(m: seq<octet>): seq<octet> {
    m + Stop(|m|) + Length64(|m|)
  }

  // Sections 3.1 and 3.2: the message, the bit 1, zeros, and the length in bits, its lowest octet first.
  lemma PaddingMeans(m: seq<octet>)
    ensures var p := Padded(m); var n := |p|;
            && |m| + 9 <= n < |m| + 73 && n % 64 == 0 && m <= p && p[|m|] == 0x80
            && forall i :: |m| < i < n - 8 ==> p[i] == 0
    ensures var p := Padded(m); var n, bits := |p|, 8 * |m|;
            && n >= 8
            && p[n - 8] == (bits % 256) as octet
            && p[n - 7] == (bits / 0x100 % 256) as octet
            && p[n - 6] == (bits / 0x1_0000 % 256) as octet
            && p[n - 5] == (bits / 0x100_0000 % 256) as octet
            && p[n - 4] == (bits / 0x1_0000_0000 % 256) as octet
            && p[n - 3] == (bits / 0x100_0000_0000 % 256) as octet
            && p[n - 2] == (bits / 0x1_0000_0000_0000 % 256) as octet
            && p[n - 1] == (bits / 0x100_0000_0000_0000 % 256) as octet
  {
    hide Length64;
    PaddedFits(m);
    LengthOctets(|m|);
    var p, s := Padded(m), Length64(|m|);
    assert forall k :: 0 <= k < 8 ==> p[|p| - 8 + k] == s[k];
  }

  lemma LengthOctets(n: nat)
    ensures var s, bits := Length64(n), 8 * n;
            && s[0] == (bits % 256) as octet
            && s[1] == (bits / 0x100 % 256) as octet
            && s[2] == (bits / 0x1_0000 % 256) as octet
            && s[3] == (bits / 0x100_0000 % 256) as octet
            && s[4] == (bits / 0x1_0000_0000 % 256) as octet
            && s[5] == (bits / 0x100_0000_0000 % 256) as octet
            && s[6] == (bits / 0x1_0000_0000_0000 % 256) as octet
            && s[7] == (bits / 0x100_0000_0000_0000 % 256) as octet
  {
    OctetsOf(8 * n);
    OctetsOf(8 * n / TWO32);
    HighOctets(8 * n);
  }

  lemma PaddedFits(m: seq<octet>)
    ensures |Padded(m)| % BLOCK == 0 && |m| + 9 <= |Padded(m)| < |m| + 9 + BLOCK
  {
    hide Length64, Stop;
  }

  function Octets(w: bv32): (s: seq<octet>)
    ensures |s| == 4
  {
    [(w & 255) as bv8, ((w >> 8) & 255) as bv8, ((w >> 16) & 255) as bv8, ((w >> 24) & 255) as bv8]
  }

  function Hash(m: seq<octet>): seq<octet> {
    var r := Fold(Compress, INITIAL, Padded(m));
    Octets(r.a) + Octets(r.b) + Octets(r.c) + Octets(r.d)
  }

  // ------------------------------------------------------------ the context

  class Context {
    var state: Regs
    var low: u32
    var high: u32
    const buffer: array<octet>

    // Every octet taken in so far.
    ghost var message: seq<octet>

    ghost predicate Valid()
      reads this, buffer
    {
      buffer.Length == BLOCK && Counts(low, high, message) && Holds(Compress, INITIAL, message, state, buffer[..])
    }

    // MD5_Init
    constructor ()
      ensures Valid() && message == [] && fresh(buffer)
    {
      hide Holds, Counts;
      state, low, high, buffer, message := INITIAL, 0, 0, new octet[BLOCK], [];
      new;
      HoldsNothing(Compress, INITIAL, buffer[..]);
      CountsNothing();
    }

    // MD5_Update
    method Update(data: seq<octet>)
      requires Valid() && |data| < TWO32
      modifies this, buffer
      ensures Valid() && message == old(message) + data
    {
      hide Counts, Holds;
      Position(low, high, message);
      CountsOn(low, high, message, data);
      var t := low / 8 % BLOCK;
      low, high := NewLow(low, |data|), NewHigh(low, high, |data|);
      ghost var m := message;
      message := m + data;
      var at := 0;
      if t != 0 {
        at := 64 - t;
        if |data| < at {
          Keep(m, t, data);
          return;
        }
        Complete(m, t, data[..at]);
        FillsBlock(|m|);
      }
      assert data[..0] == [] && m + [] == m;
      while |data| - at >= 64
        modifies this`state, buffer
        invariant at <= |data| && (|m| + at) % BLOCK == 0
        invariant Holds(Compress, INITIAL, m + data[..at], state, buffer[..])
      {
        Complete(m + data[..at], 0, data[at..at + 64]);
        OnePieceMore(m, data, at, at + BLOCK);
        NextBlock(|m|, at);
        at := at + 64;
      }
      Keep(m + data[..at], 0, data[at..]);
      assert m + data[..at] + data[at..] == m + data;
    }

    // A block is complete with this data.
    method Complete(ghost m: seq<octet>, t: nat, data: seq<octet>)
      requires buffer.Length == BLOCK && Holds(Compress, INITIAL, m, state, buffer[..])
      requires t == |m| % BLOCK && t + |data| == BLOCK
      modifies this`state, buffer
      ensures Holds(Compress, INITIAL, m + data, state, buffer[..])
    {
      hide Holds;
      ghost var before := buffer[..];
      CopyInto(buffer, t, data);
      assert buffer[..] == before[..t] + data;
      HoldsBlock(Compress, INITIAL, m, state, before, data, buffer[..]);
      state := Transform(state, buffer[..]);
    }

    // The rest goes to the buffer.
    method Keep(ghost m: seq<octet>, t: nat, data: seq<octet>)
      requires buffer.Length == BLOCK && Holds(Compress, INITIAL, m, state, buffer[..])
      requires t == |m| % BLOCK && t + |data| < BLOCK
      modifies buffer
      ensures Holds(Compress, INITIAL, m + data, state, buffer[..])
    {
      hide Holds;
      ghost var before := buffer[..];
      CopyInto(buffer, t, data);
      assert buffer[..][..t + |data|] == before[..t] + data;
      HoldsMore(Compress, INITIAL, m, state, before, data, buffer[..]);
    }

    // MD5_Final
    method Final() returns (digest: seq<octet>)
      requires Valid()
      modifies this, buffer
      ensures digest == Hash(old(message))
    {
      hide Counts, Holds, Length64, Stop, Zeros;
      ghost var m := message;
      LengthWords(low, high, m);
      Position(low, high, m);
      PaddedFits(m);
      var at := low / 8 % BLOCK;
      var count := 63 - at;
      StopSplits(|m|);
      FillsBlock(|m|);
      if count < 8 {
        Complete(m, at, [0x80] + Zeros(count));
        Complete(m + ([0x80] + Zeros(count)), 0, Zeros(56) + (Le32(low) + Le32(high)));
      } else {
        Complete(m, at, [0x80] + Zeros(count - 8) + (Le32(low) + Le32(high)));
      }
      Regroup(m, [0x80] + Zeros(count), Zeros(56), Length64(|m|));
      Regroup(m, Stop(|m|), [], Length64(|m|));
      Finished(Compress, INITIAL, Padded(m), state, buffer[..]);
      digest := Octets(state.a) + Octets(state.b) + Octets(state.c) + Octets(state.d);
    }
  }

  lemma Regroup(a: seq<octet>, b: seq<octet>, c: seq<octet>, d: seq<octet>)
    ensures a + b + (c + d) == a + (b + c) + d && b + [] == b && [] + d == d
    ensures a + (b + d) == a + b + d
  {}

  lemma LengthWords(low: u32, high: u32, m: seq<octet>)
    requires Counts(low, high, m)
    ensures Le32(low) + Le32(high) == Length64(|m|)
  {
    hide Le32;
    WordsOf(8 * |m|, low, high);
  }

  // Any cut of a message gives its hash.
  method HashPieces(pieces: seq<seq<octet>>) returns (digest: seq<octet>)
    requires forall i :: 0 <= i < |pieces| ==> |pieces[i]| < TWO32
    ensures digest == Hash(Concat(pieces))
  {
    hide Counts, Holds, Hash;
    var c := new Context();
    for i := 0 to |pieces|
      invariant c.Valid() && fresh(c) && fresh(c.buffer) && c.message == Concat(pieces[..i])
    {
      c.Update(pieces[i]);
      assert pieces[..i + 1][..i] == pieces[..i];
    }
    assert pieces[..|pieces|] == pieces;
    digest := c.Final();
  }
}
