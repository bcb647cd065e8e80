// Base64: the streaming and one-shot encoders and the decoder of
// packages/mongoose-v6.7/mongoose.c, the encoder and decoder of
// ports/wifi/wifi_config.c, and section 4 of RFC 4648 between them.
// The bit fields the programs join with | never overlap, so | is + here.
module Base64 {
  import opened Bytes

  // ------------------------------------------------- section 4 of RFC 4648

  type sextet = n: int | 0 <= n < 64

  const PAD: byte := 0x3D

  // Table 1: the alphabet
  function Code(v: sextet): byte {
    if v < 26 then 0x41 + v else if v < 52 then 0x61 + (v - 26) else if v < 62 then 0x30 + (v - 52)
    else if v == 62 then 0x2B else 0x2F
  }

  function OctetAt(g: seq<byte>, i: nat): (v: int)
    ensures 0 <= v < 0x100
  {
    if i < |g| then g[i] else 0
  }

  // One to three octets as a 24-bit group, padded with zero bits.
  function Bits(g: seq<byte>): (v: int)
    requires 1 <= |g| <= 3
    ensures 0 <= v < 0x100_0000
  {
    OctetAt(g, 0) * 0x1_0000 + OctetAt(g, 1) * 0x100 + OctetAt(g, 2)
  }

  function Group(g: seq<byte>): (t: seq<byte>)
    requires 1 <= |g| <= 3
    ensures |t| == 4
  {
    var v := Bits(g);
    [Code(v / 0x4_0000), Code(v / 0x1000 % 64),
     if |g| > 1 then Code(v / 64 % 64) else PAD,
     if |g| > 2 then Code(v % 64) else PAD]
  }

  function Encode(s: seq<byte>): (t: seq<byte>)
    ensures |t| == (|s| + 2) / 3 * 4
    decreases |s|
  {
    if s == [] then [] else if |s| <= 3 then Group(s) else Group(s[..3]) + Encode(s[3..])
  }

  lemma {:induction false} EncodeAppend(s: seq<byte>, t: seq<byte>)
    requires |s| % 3 == 0
    ensures Encode(s + t) == Encode(s) + Encode(t)
    decreases |s|
  {
    hide Group;
    if s == [] {
      assert s + t == t;
    } else {
      assert (s + t)[..3] == s[..3] && (s + t)[3..] == s[3..] + t;
      EncodeAppend(s[3..], t);
      if |s| == 3 {
        assert s[..3] == s;
        if t == [] {
          assert s + t == s;
        }
      }
    }
  }

  // The buffer ports/wifi/wifi_config.c allocates always holds the text and a
  // zero, and no smaller one would when a single octet is left over.
  lemma BufferFits(n: nat)
    ensures (n + 2) / 3 * 4 + 1 <= n * 4 / 3 + 4
    ensures (n + 2) / 3 * 4 + 1 == n * 4 / 3 + 4 <==> n % 3 == 1
  {
    var q, r := n / 3, n % 3;
    assert n * 4 == 3 * (4 * q) + 4 * r;
    if r == 0 {
      assert n + 2 == 3 * q + 2 && n * 4 / 3 == 4 * q;
    } else if r == 1 {
      assert n + 2 == 3 * (q + 1) && n * 4 / 3 == 4 * q + 1;
    } else {
      assert n + 2 == 3 * (q + 1) + 1 && n * 4 / 3 == 4 * q + 2;
    }
  }

  // ------------------------------------------------------------- encoders

  // The four codes of a group, as the programs cut them out of its octets.
  lemma Fields(a: byte, b: byte, c: byte)
    ensures var v := Bits([a, b, c]);
            v / 0x4_0000 == a / 4 && v / 0x1000 % 64 == a % 4 * 16 + b / 16 &&
            v / 64 % 64 == b % 16 * 4 + c / 64 && v % 64 == c % 64
  {
    Sextets(a / 4, a % 4 * 16 + b / 16, b % 16 * 4 + c / 64, c % 64);
  }

  lemma Sextets(p: sextet, q: sextet, r: sextet, s: sextet)
    ensures var v := p * 0x4_0000 + q * 0x1000 + r * 64 + s;
            v / 0x4_0000 == p && v / 0x1000 % 64 == q && v / 64 % 64 == r && v % 64 == s
  {
    var v := p * 0x4_0000 + q * 0x1000 + r * 64 + s;
    assert v / 64 == p * 0x1000 + q * 64 + r;
    assert v / 0x1000 == p * 64 + q;
  }

  // Zero octets stand for missing ones.
  lemma GroupOf(g: seq<byte>, a: byte, b: byte, c: byte)
    requires 1 <= |g| <= 3 && a == g[0] && b == (if |g| > 1 then g[1] else 0) && c == (if |g| > 2 then g[2] else 0)
    ensures Group(g) == [Code(a / 4), Code(a % 4 * 16 + b / 16),
                         if |g| > 1 then Code(b % 16 * 4 + c / 64) else PAD, if |g| > 2 then Code(c % 64) else PAD]
  {
    Fields(a, b, c);
    assert Bits(g) == Bits([a, b, c]);
  }

  // What has been sent, and what is held back of the message.
  ghost predicate Held(m: seq<byte>, held: seq<byte>, sent: seq<byte>) {
    |held| == |m| % 3 && held == m[|m| - |held|..] && sent == Encode(m[..|m| - |held|])
  }

  // struct cs_base64_ctx; what its callback has received is kept in sent.
  class Encoder {
    const chunk: array<byte>
    var chunkSize: nat
    var sent: seq<byte>

    ghost var message: seq<byte>

    ghost predicate Valid()
      reads this, chunk
    {
      chunk.Length == 3 && chunkSize < 3 && Held(message, chunk[..chunkSize], sent)
    }

    // cs_base64_init
    constructor ()
      ensures Valid() && message == [] && fresh(chunk)
    {
      chunk, chunkSize, sent, message := new byte[3], 0, [], [];
    }

    // cs_base64_emit_chunk
    method EmitChunk()
      requires chunk.Length == 3 && 1 <= chunkSize <= 3
      requires forall i :: chunkSize <= i < 3 ==> chunk[i] == 0
      modifies this`sent
      ensures sent == old(sent) + Group(chunk[..chunkSize])[..chunkSize + 1]
    {
      var a, b, c := chunk[0], chunk[1], chunk[2];
      GroupOf(chunk[..chunkSize], a, b, c);
      sent := sent + [Code(a / 4)];
      sent := sent + [Code(a % 4 * 16 + b / 16)];
      if chunkSize > 1 {
        sent := sent + [Code(b % 16 * 4 + c / 64)];
      }
      if chunkSize > 2 {
        sent := sent + [Code(c % 64)];
      }
    }

    // cs_base64_update
    method Update(str: seq<byte>)
      requires Valid()
      modifies this, chunk
      ensures Valid() && message == old(message) + str
    {
      hide Encode;
      assert str[..0] == [] && message + [] == message;
      for i := 0 to |str|
        invariant Valid() && message == old(message) + str[..i]
      {
        ghost var was := message;
        Take(str[i]);
        assert was + [str[i]] == old(message) + str[..i + 1];
      }
    }

    // One turn of its loop
    method Take(c: byte)
      requires Valid()
      modifies this, chunk
      ensures Valid() && message == old(message) + [c]
    {
      hide Held;
      ghost var held := chunk[..chunkSize];
      HeldMore(message, held, sent, c);
      chunk[chunkSize] := c;
      chunkSize := chunkSize + 1;
      assert chunk[..chunkSize] == held + [c];
      message := message + [c];
      if chunkSize == 3 {
        EmitChunk();
        chunkSize := 0;
      }
    }

    // cs_base64_finish
    method Finish()
      requires Valid()
      modifies this, chunk
      ensures sent == Encode(old(message))
    {
      hide Encode, Group;
      ghost var before, rest := sent, chunk[..chunkSize];
      LastGroup(message, rest, sent);
      if chunkSize > 0 {
        forall i | chunkSize <= i < 3 {
          chunk[i] := 0;
        }
        assert chunk[..chunkSize] == rest;
        EmitChunk();
        for i := 0 to 3 - chunkSize
          modifies this`sent
          invariant sent == before + Group(rest)[..|rest| + 1 + i]
        {
          Padding(rest, |rest| + 1 + i);
          sent := sent + [PAD];
        }
      }
    }
  }

  lemma HeldMore(m: seq<byte>, held: seq<byte>, sent: seq<byte>, c: byte)
    requires Held(m, held, sent) && |held| < 3
    ensures |held| < 2 ==> Held(m + [c], held + [c], sent)
    ensures |held| == 2 ==> Held(m + [c], [], sent + Group(held + [c])[..4])
  {
    hide Group, Encode;
    var before, group := m[..|m| - |held|], held + [c];
    assert m + [c] == before + group;
    if |held| == 2 {
      Thirds(|m|);
      EncodeAppend(before, group);
      assert (m + [c])[..|m| + 1] == before + group;
      OneGroup(group);
    } else {
      assert (m + [c])[..|m| + 1 - |group|] == before;
    }
  }

  lemma Thirds(n: nat)
    ensures (n - n % 3) % 3 == 0
  {}

  lemma OneGroup(g: seq<byte>)
    requires 1 <= |g| <= 3
    ensures Encode(g) == Group(g)[..4]
  {}

  lemma LastGroup(m: seq<byte>, held: seq<byte>, sent: seq<byte>)
    requires Held(m, held, sent) && |held| < 3
    ensures Encode(m) == if held == [] then sent else sent + Group(held)[..4]
  {
    hide Group, Encode;
    var before := m[..|m| - |held|];
    assert m == before + held;
    if held == [] {
      assert before == m;
    } else {
      Thirds(|m|);
      EncodeAppend(before, held);
      OneGroup(held);
    }
  }

  lemma Padding(g: seq<byte>, i: nat)
    requires 1 <= |g| < i < 4
    ensures Group(g)[..i + 1] == Group(g)[..i] + [PAD]
  {}

  // The octets of the group that starts at i.
  function Third(s: seq<byte>, i: nat): (g: seq<byte>)
    requires i < |s|
    ensures 1 <= |g| <= 3
  {
    if i + 3 <= |s| then s[i..i + 3] else s[i..]
  }

  lemma GroupAt(s: seq<byte>, k: nat)
    requires 3 * k < |s|
    ensures var j, t := 4 * k, Encode(s); j + 4 <= |t| && t[..j + 4] == t[..j] + Group(Third(s, 3 * k))
    ensures 3 * k + 3 >= |s| ==> 4 * k + 4 == |Encode(s)|
  {
    hide Group, Encode, Third;
    var i := 3 * k;
    EncodeAppend(s[..i], s[i..]);
    assert s[..i] + s[i..] == s;
    var head, rest := Encode(s[..i]), s[i..];
    EncodeStart(rest);
    SameThird(s, i);
    Taken(head, Encode(rest));
  }

  lemma SameThird(s: seq<byte>, i: nat)
    requires i < |s|
    ensures Third(s, i) == Third(s[i..], 0)
  {}

  lemma EncodeStart(s: seq<byte>)
    requires s != []
    ensures |Encode(s)| >= 4 && Encode(s)[..4] == Group(Third(s, 0))
  {
    hide Group;
    assert |s| <= 3 ==> Third(s, 0) == s;
  }

  lemma Taken(a: seq<byte>, b: seq<byte>)
    requires |b| >= 4
    ensures (a + b)[..|a| + 4] == (a + b)[..|a|] + b[..4]
  {}

  // The codes of one group, as many as it has octets and one more.
  method EmitGroup(src: seq<byte>, i: nat, dst: array<byte>, at: nat) returns (j: nat)
    requires i < |src| && at + 4 <= dst.Length
    modifies dst
    ensures j == at + |Third(src, i)| + 1 && dst[..j] == old(dst[..at]) + Group(Third(src, i))[..j - at]
  {
    hide Code, Group;
    ghost var g := Third(src, i);
    var a := src[i];
    var b := if i + 1 >= |src| then 0 else src[i + 1];
    var c := if i + 2 >= |src| then 0 else src[i + 2];
    GroupOf(g, a, b, c);
    dst[at], dst[at + 1], j := Code(a / 4), Code(a % 4 * 16 + b / 16), at + 2;
    if i + 1 < |src| {
      dst[j], j := Code(b % 16 * 4 + c / 64), j + 1;
    }
    if i + 2 < |src| {
      dst[j], j := Code(c % 64), j + 1;
    }
  }

  // cs_base64_encode
  method EncodeInto(src: seq<byte>, dst: array<byte>)
    requires |Encode(src)| < dst.Length
    modifies dst
    ensures dst[..|Encode(src)|] == Encode(src) && dst[|Encode(src)|] == 0
  {
    hide Encode, Group, Third;
    ghost var t := Encode(src);
    ghost var k := 0;
    var i, j := 0, 0;
    while i < |src|
      invariant i == 3 * k && 0 <= j <= |t| && dst[..j] == t[..j]
      invariant i <= |src| ==> j == 4 * k
      invariant i >= |src| ==> |t| - j < 4 && forall l :: j <= l < |t| ==> t[l] == PAD
    {
      GroupAt(src, k);
      ghost var start := j;
      GroupEnd(Third(src, i));
      j := EmitGroup(src, i, dst, j);
      GroupCut(t, start, Third(src, i));
      WholeThird(src, i);
      i := i + 3;
      k := k + 1;
    }
    PadOut(dst, j, t);
  }

  // The end of BASE64_ENCODE_BODY
  method PadOut(dst: array<byte>, from: nat, ghost t: seq<byte>)
    requires from <= |t| < dst.Length && dst[..from] == t[..from]
    requires |t| % 4 == 0 && |t| - from < 4 && forall k :: from <= k < |t| ==> t[k] == PAD
    modifies dst
    ensures dst[..|t|] == t && dst[|t|] == 0
  {
    var j := from;
    while j % 4 != 0
      invariant from <= j <= |t| && dst[..j] == t[..j]
      decreases |t| - j
    {
      dst[j], j := PAD, j + 1;
    }
    dst[j] := 0;
  }

  lemma WholeThird(s: seq<byte>, i: nat)
    requires i < |s|
    ensures i + 3 <= |s| ==> |Third(s, i)| == 3
  {}

  lemma GroupCut(t: seq<byte>, start: nat, g: seq<byte>)
    requires 1 <= |g| <= 3 && start + 4 <= |t| && t[..start + 4] == t[..start] + Group(g)
    ensures t[..start + |g| + 1] == t[..start] + Group(g)[..|g| + 1]
    ensures forall l :: start + |g| + 1 <= l < start + 4 ==> t[l] == Group(g)[l - start]
  {
    hide Group;
    var u := t[..start + 4];
    assert u[..start + |g| + 1] == t[..start + |g| + 1];
    forall l | start + |g| + 1 <= l < start + 4 ensures t[l] == Group(g)[l - start] {
      assert u[l] == Group(g)[l - start];
    }
  }

  lemma GroupEnd(g: seq<byte>)
    requires 1 <= |g| <= 3
    ensures forall k :: |g| + 1 <= k < 4 ==> Group(g)[k] == PAD
  {}

  // The last one or two octets, with the padding.
  method EmitLast(src: seq<byte>, at: nat, out: array<byte>, from: nat) returns (pos: nat)
    requires at < |src| < at + 3 && from + 4 <= out.Length
    modifies out
    ensures pos == from + 4 && out[..pos] == old(out[..from]) + Group(Third(src, at))
  {
    hide Group, Code;
    pos := from;
    GroupOf(Third(src, at), src[at], if |src| - at == 1 then 0 else src[at + 1], 0);
    out[pos] := Code(src[at] / 4);
    if |src| - at == 1 {
      out[pos + 1] := Code(src[at] % 4 * 16);
      out[pos + 2] := PAD;
    } else {
      out[pos + 1] := Code(src[at] % 4 * 16 + src[at + 1] / 16);
      out[pos + 2] := Code(src[at + 1] % 16 * 4);
    }
    out[pos + 3] := PAD;
    pos := pos + 4;
  }

  // str_base64_encode_len of ports/wifi/wifi_config.c
  method EncodeConfig(src: seq<byte>, out: array<byte>)
    requires |Encode(src)| < out.Length
    modifies out
    ensures out[..|Encode(src)|] == Encode(src) && out[|Encode(src)|] == 0
  {
    hide Encode, Group, Third;
    ghost var t := Encode(src);
    ghost var k := 0;
    var at, pos := 0, 0;
    while |src| - at >= 3
      invariant at == 3 * k <= |src| && pos == 4 * k <= |t| && out[..pos] == t[..pos]
      invariant at == |src| ==> pos == |t|
    {
      GroupAt(src, k);
      pos := EmitWhole(src, at, out, pos);
      at := at + 3;
      k := k + 1;
    }
    if |src| - at != 0 {
      GroupAt(src, k);
      pos := EmitLast(src, at, out, pos);
    }
    out[pos] := 0;
  }

  // One turn of its loop
  method EmitWhole(src: seq<byte>, at: nat, out: array<byte>, from: nat) returns (pos: nat)
    requires at + 3 <= |src| && from + 4 <= out.Length
    modifies out
    ensures pos == from + 4 && out[..pos] == old(out[..from]) + Group(Third(src, at))
  {
    hide Group, Code;
    var a, b, c := src[at], src[at + 1], src[at + 2];
    GroupOf(Third(src, at), a, b, c);
    pos := from;
    out[pos], out[pos + 1] := Code(a / 4), Code(a % 4 * 16 + b / 16);
    out[pos + 2], out[pos + 3] := Code(b % 16 * 4 + c / 64), Code(c % 64);
    pos := pos + 4;
  }
}
