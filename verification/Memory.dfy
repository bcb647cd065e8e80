// memmove and memcpy, which the programs write their buffers with.
module Memory {
  import opened Bytes

  // memmove; source and destination may overlap.
  method MemMove(a: array<byte>, to: nat, from: nat, n: nat)
    requires to + n <= a.Length && from + n <= a.Length
    modifies a
    ensures a[..to] == old(a[..to]) && a[to..to + n] == old(a[from..from + n]) && a[to + n..] == old(a[to + n..])
  {
    forall i | 0 <= i < n {
      a[to + i] := a[from + i];
    }
  }

  method MemCpy(a: array<byte>, to: nat, s: seq<byte>)
    requires to + |s| <= a.Length
    modifies a
    ensures a[..to] == old(a[..to]) && a[to..to + |s|] == s && a[to + |s|..] == old(a[to + |s|..])
  {
    forall i | 0 <= i < |s| {
      a[to + i] := s[i];
    }
  }

  // memcpy at a moving pointer
  method Put(a: array<byte>, at: nat, s: seq<byte>) returns (next: nat)
    requires at + |s| <= a.Length
    modifies a
    ensures next == at + |s| && a[..next] == old(a[..at]) + s
  {
    MemCpy(a, at, s);
    next := at + |s|;
    assert a[..next] == a[..at] + a[at..next];
  }
}
