// The growing buffer of packages/mongoose-v6.7/mongoose.c.
module Mbufs {
  import opened Bytes
  import opened Memory

  // A gap of n bytes has been opened behind the first off.
  ghost predicate Gap(a: seq<byte>, was: seq<byte>, off: nat, n: nat) {
    off <= |was| && |was| + n <= |a| && a[..off] == was[..off] && a[off + n..][..|was| - off] == was[off..]
  }

  lemma Widened(a: seq<byte>, was: seq<byte>, off: nat, n: nat)
    requires off <= |was| && |was| + n <= |a|
    requires a[..off + n][..off] == was[..off] && a[off + n..off + n + (|was| - off)] == was[off..]
    ensures Gap(a, was, off, n)
  {
    assert a[off + n..][..|was| - off] == a[off + n..off + n + (|was| - off)];
  }

  lemma Prefixes(a: seq<byte>, was: seq<byte>, off: nat)
    requires off <= |was| <= |a| && a[..|was|] == was
    ensures a[off..|was|] == was[off..] && forall n :: off <= n <= |a| ==> a[..n][..off] == was[..off]
  {
    assert forall n :: off <= n <= |a| ==> a[..n][..off] == a[..off];
    assert a[..off] == a[..|was|][..off];
  }

  lemma StillGap(a: seq<byte>, b: seq<byte>, was: seq<byte>, off: nat, n: nat)
    requires Gap(a, was, off, n) && |a| == |b| && b[..off] == a[..off] && b[off + n..] == a[off + n..]
    ensures Gap(b, was, off, n)
  {}

  lemma Filled(a: seq<byte>, was: seq<byte>, off: nat, s: seq<byte>)
    requires Gap(a, was, off, |s|) && a[off..off + |s|] == s
    ensures a[..|was| + |s|] == was[..off] + s + was[off..]
  {
    assert a[..|was| + |s|] == a[..off] + a[off..off + |s|] + a[off + |s|..][..|was| - off];
  }

  class Mbuf {
    var buf: array<byte>
    var len: nat

    ghost predicate Valid()
      reads this
    {
      len <= buf.Length
    }

    ghost function Contents(): (s: seq<byte>)
      requires Valid()
      reads this, buf
      ensures |s| == len
    {
      buf[..len]
    }

    // mbuf_init
    constructor (initialSize: nat)
      ensures Valid() && Contents() == [] && fresh(buf)
    {
      buf, len := new byte[initialSize], 0;
    }

    // mbuf_resize; shrinks only down to what is held.
    method Resize(newSize: nat)
      requires Valid()
      modifies this`buf
      ensures Valid() && Contents() == old(Contents()) && (buf == old(buf) || fresh(buf))
      ensures buf.Length == if newSize >= len then newSize else old(buf).Length
    {
      if newSize > buf.Length || (newSize < buf.Length && newSize >= len) {
        var p := new byte[newSize];
        forall i | 0 <= i < len {
          p[i] := buf[i];
        }
        assert p[..len] == buf[..len];
        buf := p;
      }
    }

    // mbuf_trim
    method Trim()
      requires Valid()
      modifies this`buf
      ensures Valid() && Contents() == old(Contents()) && (buf == old(buf) || fresh(buf)) && buf.Length == len
    {
      Resize(len);
    }

    // The growth of mbuf_insert, by half as much again.
    method MakeRoom(n: nat)
      requires Valid()
      modifies this`buf
      ensures Valid() && Contents() == old(Contents()) && len + n <= buf.Length && (buf == old(buf) || fresh(buf))
    {
      if len + n > buf.Length {
        Resize((len + n) * 3 / 2);
      }
    }

    // mbuf_insert
    method Insert(off: nat, s: seq<byte>)
      requires Valid() && off <= len
      modifies this, buf
      ensures Valid() && Contents() == old(Contents()[..off] + s + Contents()[off..])
      ensures buf == old(buf) || fresh(buf)
    {
      hide Gap;
      ghost var was := Contents();
      MakeRoom(|s|);
      Prefixes(buf[..], was, off);
      MemMove(buf, off + |s|, off, len - off);
      Widened(buf[..], was, off, |s|);
      ghost var gap := buf[..];
      MemCpy(buf, off, s);
      StillGap(gap, buf[..], was, off, |s|);
      Filled(buf[..], was, off, s);
      len := len + |s|;
    }

    // mbuf_append
    method Append(s: seq<byte>)
      requires Valid()
      modifies this, buf
      ensures Valid() && Contents() == old(Contents()) + s
      ensures buf == old(buf) || fresh(buf)
    {
      ghost var was := Contents();
      assert was[..len] == was && was[len..] == [] && was + s + [] == was + s;
      Insert(len, s);
    }

    // mbuf_append without data: room for n more bytes
    method Extend(n: nat)
      requires Valid()
      modifies this, buf
      ensures Valid() && len == old(len) + n && Contents()[..old(len)] == old(Contents())
      ensures buf == old(buf) || fresh(buf)
    {
      MakeRoom(n);
      assert buf[..len + n][..len] == buf[..len];
      len := len + n;
    }

    // mbuf_remove; more than is held removes nothing.
    method Remove(n: nat)
      requires Valid()
      modifies this`len, buf
      ensures Valid() && Contents() == if n <= old(len) then old(Contents())[n..] else old(Contents())
    {
      if n > 0 && n <= len {
        MemMove(buf, 0, n, len - n);
        assert buf[0..0 + (len - n)] == buf[..len - n];
        len := len - n;
      }
    }
  }
}
