// Domain names and the name reader of ports/mdns/mdns.c.
//
// A name is the byte string kept in struct mdns_domain: labels, each with its
// length byte, closed by a zero byte.  In a packet the tail of a name may be
// replaced by a two-byte jump (section 4.1.4 of RFC 1035).
module MdnsName {
  import opened Bytes

  const LABEL_MAXLEN := 63
  const DOMAIN_MAXLEN := 256
  const READNAME_ERROR := 0xFFFF
  const DNS_HDR := 12
  const MAX_JUMPS := 5
  const JUMP := 0xC0

  // ---------------------------------------------------------------- names

  // From position i the bytes of n are whole labels up to a final zero byte.
  predicate WfFrom(n: seq<byte>, i: nat)
    decreases |n| - i
  {
    && i < |n|
    && if n[i] == 0 then i + 1 == |n|
       else n[i] <= LABEL_MAXLEN && i + 1 + n[i] < |n| && WfFrom(n, i + 1 + n[i])
  }

  predicate WfName(n: seq<byte>) { WfFrom(n, 0) }

  function LabelsFrom(n: seq<byte>, i: nat): nat
    requires WfFrom(n, i)
    decreases |n| - i
  {
    if n[i] == 0 then 0 else 1 + LabelsFrom(n, i + 1 + n[i])
  }

  function Labels(n: seq<byte>): nat
    requires WfName(n)
  {
    LabelsFrom(n, 0)
  }

  // Walking labels from i passes k.
  predicate Boundary(n: seq<byte>, i: nat, k: nat)
    requires WfFrom(n, i)
    decreases |n| - i
  {
    i == k || (i < k && n[i] != 0 && Boundary(n, i + 1 + n[i], k))
  }

  // From i on, every label is shorter than m and all its bytes are at least m.
  predicate Separated(n: seq<byte>, i: nat, m: nat)
    requires WfFrom(n, i)
    decreases |n| - i
  {
    n[i] == 0 ||
    (n[i] < m && (forall k :: i < k <= i + n[i] ==> n[k] >= m) && Separated(n, i + 1 + n[i], m))
  }

  lemma {:induction false} BoundaryWf(n: seq<byte>, i: nat, k: nat)
    requires WfFrom(n, i) && Boundary(n, i, k)
    ensures WfFrom(n, k)
    decreases |n| - i
  {
    if i < k {
      BoundaryWf(n, i + 1 + n[i], k);
    }
  }

  lemma {:induction false} BoundaryNext(n: seq<byte>, i: nat, k: nat)
    requires WfFrom(n, i) && Boundary(n, i, k) && k < |n| && n[k] != 0
    ensures Boundary(n, i, k + 1 + n[k])
    decreases |n| - i
  {
    if i < k {
      BoundaryNext(n, i + 1 + n[i], k);
    }
  }

  // Within a separated name a byte below m can only be a length byte.
  lemma {:induction false} SmallByteIsBoundary(n: seq<byte>, i: nat, m: nat, k: nat)
    requires WfFrom(n, i) && Separated(n, i, m) && i <= k < |n| && n[k] < m
    ensures Boundary(n, i, k)
    decreases |n| - i
  {
    if i < k {
      if k <= i + n[i] {
        assert false;
      }
      SmallByteIsBoundary(n, i + 1 + n[i], m, k);
    }
  }

  // ------------------------------------------------------- adding labels

  // mdns_domain_add_label; None is ERR_VAL.
  function WithLabel(d: seq<byte>, part: seq<byte>): (r: Option<seq<byte>>)
    requires |part| < 0x100
  {
    if |part| > LABEL_MAXLEN then None
    else if |part| > 0 && 1 + |part| + |d| >= DOMAIN_MAXLEN then None
    else if |part| == 0 && 1 + |d| > DOMAIN_MAXLEN then None
    else Some(d + [|part|] + part)
  }

  // struct mdns_domain
  class Domain {
    const name: array<byte>
    var length: nat
    var skipCompression: bool

    ghost predicate Valid()
      reads this
    {
      name.Length == DOMAIN_MAXLEN && length <= DOMAIN_MAXLEN
    }

    ghost function Contents(): seq<byte>
      requires Valid()
      reads this, name
    {
      name[..length]
    }

    constructor ()
      ensures Valid() && fresh(name)
      ensures Contents() == [] && !skipCompression
    {
      name := new byte[DOMAIN_MAXLEN](_ => 0);
      length := 0;
      skipCompression := false;
    }

    // memset(domain, 0, sizeof(struct mdns_domain))
    method Clear()
      requires Valid()
      modifies this, name
      ensures Valid() && Contents() == [] && !skipCompression
    {
      for i := 0 to name.Length {
        name[i] := 0;
      }
      length := 0;
      skipCompression := false;
    }

    method AddLabel(part: seq<byte>) returns (ok: bool)
      requires Valid() && |part| < 0x100
      modifies this`length, name
      ensures Valid()
      ensures ok == WithLabel(old(Contents()), part).Some?
      ensures Contents() == if ok then WithLabel(old(Contents()), part).value else old(Contents())
      ensures ok <==> |part| <= 63 && |old(Contents())| + 1 + |part| <= if part == [] then 256 else 255
      ensures ok ==> Contents() == old(Contents()) + [|part|] + part
    {
      if |part| > LABEL_MAXLEN {
        return false;
      }
      if |part| > 0 && 1 + |part| + length >= DOMAIN_MAXLEN {
        return false;
      }
      if |part| == 0 && 1 + length > DOMAIN_MAXLEN {
        return false;
      }
      ghost var was := Contents();
      name[length] := |part|;
      length := length + 1;
      assert Contents() == was + [|part|];
      forall i | 0 <= i < |part| {
        name[length + i] := part[i];
      }
      length := length + |part|;
      assert name[..length - |part|] == was + [|part|];
      assert Contents() == was + [|part|] + part;
      return true;
    }
  }

  // ------------------------------------------------------ reading names

  // pbuf_get_at: past the end of the packet it yields zero.
  function PbufGet(p: seq<byte>, offset: nat): byte {
    if offset < |p| then p[offset] else 0
  }

  function JumpTarget(hi: byte, lo: byte): u16
    requires hi >= JUMP
  {
    (hi - JUMP) * 0x100 + lo
  }

  // What mdns_readname_loop returns, and the bytes its domain then holds.
  datatype ReadResult = ReadResult(end: u16, name: seq<byte>)

  // One turn of the do-while loop of mdns_readname_loop.
  datatype Turn =
    | Fail
    | Jump(target: u16, after: u16)
    | Label(after: u16, name: seq<byte>)
    | Close(after: u16, name: seq<byte>)

  function ReadTurn(p: seq<byte>, offset: u16, name: seq<byte>): (t: Turn)
    requires |p| < 0x1_0000 && |name| <= DOMAIN_MAXLEN
    ensures t.Label? ==> |name| < |t.name| < DOMAIN_MAXLEN
  {
    var c := PbufGet(p, offset);
    var next := U16(offset + 1);
    if c >= JUMP then
      if next >= |p| then Fail
      else
        var target := JumpTarget(c, p[next]);
        if DNS_HDR <= target < |p| then Jump(target, U16(next + 1)) else Fail
    else if c > LABEL_MAXLEN || c + |name| >= DOMAIN_MAXLEN then Fail
    else if c == 0 then Close(next, name + [0])
    else if next + c > |p| then Fail
    else
      match WithLabel(name, p[next..next + c])
      case None => Fail
      case Some(longer) => Label(U16(next + c), longer)
  }

  // mdns_readname_loop
  function ReadLoop(p: seq<byte>, offset: u16, name: seq<byte>, depth: nat): (r: ReadResult)
    requires |p| < 0x1_0000 && |name| <= DOMAIN_MAXLEN
    decreases if depth <= MAX_JUMPS then 1 + MAX_JUMPS - depth else 0, DOMAIN_MAXLEN - |name|
  {
    if depth > MAX_JUMPS then ReadResult(READNAME_ERROR, name)
    else
      match ReadTurn(p, offset, name)
      case Fail => ReadResult(READNAME_ERROR, name)
      case Close(after, closed) => ReadResult(after, closed)
      case Label(after, longer) => ReadLoop(p, after, longer, depth)
      case Jump(target, after) =>
        var r := ReadLoop(p, target, name, depth + 1);
        if r.end == READNAME_ERROR then r else ReadResult(after, r.name)
  }

  function ReadName(p: seq<byte>, offset: u16): ReadResult
    requires |p| < 0x1_0000
  {
    ReadLoop(p, offset, [], 0)
  }

  lemma TurnExtends(p: seq<byte>, offset: u16, name: seq<byte>)
    requires |p| < 0x1_0000 && |name| <= DOMAIN_MAXLEN
    ensures var t := ReadTurn(p, offset, name);
            && (t.Close? ==> t.name == name + [0] && |t.name| <= DOMAIN_MAXLEN)
            && (t.Label? ==> name <= t.name && 0 < t.name[|name|] <= LABEL_MAXLEN
                             && |t.name| == |name| + 1 + t.name[|name|])
  {}

  // One unfolding of ReadLoop.
  lemma ReadLoopTurn(p: seq<byte>, offset: u16, name: seq<byte>, depth: nat)
    requires |p| < 0x1_0000 && |name| <= DOMAIN_MAXLEN && depth <= MAX_JUMPS
    ensures ReadLoop(p, offset, name, depth) ==
            match ReadTurn(p, offset, name)
            case Fail => ReadResult(READNAME_ERROR, name)
            case Close(after, closed) => ReadResult(after, closed)
            case Label(after, longer) => ReadLoop(p, after, longer, depth)
            case Jump(target, after) =>
              var r := ReadLoop(p, target, name, depth + 1);
              if r.end == READNAME_ERROR then r else ReadResult(after, r.name)
  {
    hide ReadTurn;
  }

  // The "normal label" half of the loop body; false is MDNS_READNAME_ERROR.
  method ReadLabel(p: array<byte>, offset: u16, domain: Domain) returns (ok: bool, c: byte, after: u16)
    requires p.Length < 0x1_0000 && domain.Valid() && p != domain.name && PbufGet(p[..], offset) < JUMP
    modifies domain`length, domain.name
    ensures domain.Valid() && c == PbufGet(p[..], offset)
    ensures var t := ReadTurn(p[..], offset, old(domain.Contents()));
            if !ok then t.Fail? && domain.Contents() == old(domain.Contents())
            else t == if c == 0 then Close(after, domain.Contents()) else Label(after, domain.Contents())
  {
    c := if offset < p.Length then p[offset] else 0;
    after := U16(offset + 1);
    if c > LABEL_MAXLEN || c + domain.length >= DOMAIN_MAXLEN {
      return false, c, after;
    }
    var part: seq<byte> := [];
    if c != 0 {
      if after + c > p.Length {
        return false, c, after;
      }
      part := p[after..after + c];
      assert part == p[..][after..after + c];
      after := U16(after + c);
    }
    ghost var was := domain.Contents();
    ok := domain.AddLabel(part);
    assert c == 0 ==> was + [0] + [] == was + [0];
  }

  lemma JumpTurn(p: seq<byte>, offset: u16, name: seq<byte>)
    requires |p| < 0x1_0000 && |name| <= DOMAIN_MAXLEN && offset < |p| && p[offset] >= JUMP
    ensures ReadTurn(p, offset, name) ==
            if offset + 1 < |p| && DNS_HDR <= JumpTarget(p[offset], p[offset + 1]) < |p|
            then Jump(JumpTarget(p[offset], p[offset + 1]), U16(offset + 2)) else Fail
  {}

  // The "compressed label" half of the loop body.
  method FollowJump(p: array<byte>, offset: u16, domain: Domain, depth: nat) returns (end: u16)
    requires p.Length < 0x1_0000 && domain.Valid() && p != domain.name
    requires offset < p.Length && p[offset] >= JUMP && depth <= MAX_JUMPS
    modifies domain`length, domain.name
    ensures domain.Valid()
    ensures ReadResult(end, domain.Contents()) == ReadLoop(p[..], offset, old(domain.Contents()), depth)
    decreases 1 + MAX_JUMPS - depth, 0
  {
    hide ReadLoop;
    hide ReadTurn;
    ReadLoopTurn(p[..], offset, domain.Contents(), depth);
    JumpTurn(p[..], offset, domain.Contents());
    if offset + 1 >= p.Length {
      return READNAME_ERROR;
    }
    var target := JumpTarget(p[offset], p[offset + 1]);
    if !(DNS_HDR <= target < p.Length) {
      return READNAME_ERROR;
    }
    end := ReadNameLoop(p, target, domain, depth + 1);
    if end != READNAME_ERROR {
      end := U16(offset + 2);
    }
  }

  method ReadNameLoop(p: array<byte>, offset: u16, domain: Domain, depth: nat) returns (end: u16)
    requires p.Length < 0x1_0000 && domain.Valid() && p != domain.name
    modifies domain`length, domain.name
    ensures domain.Valid()
    ensures ReadResult(end, domain.Contents()) == ReadLoop(p[..], offset, old(domain.Contents()), depth)
    decreases if depth <= MAX_JUMPS then 1 + MAX_JUMPS - depth else 0, 1
  {
    if depth > MAX_JUMPS {
      return READNAME_ERROR;
    }
    hide ReadLoop;
    hide ReadTurn;
    ghost var whole := ReadLoop(p[..], offset, domain.Contents(), depth);
    var at: u16 := offset;
    while at >= p.Length || p[at] < JUMP
      invariant domain.Valid()
      invariant p[..] == old(p[..])
      invariant ReadLoop(p[..], at, domain.Contents(), depth) == whole
      decreases DOMAIN_MAXLEN - domain.length
    {
      ReadLoopTurn(p[..], at, domain.Contents(), depth);
      TurnExtends(p[..], at, domain.Contents());
      var ok, c, after := ReadLabel(p, at, domain);
      if !ok || c == 0 {
        return if ok then after else READNAME_ERROR;
      }
      at := after;
    }
    end := FollowJump(p, at, domain, depth);
  }

  // mdns_readname
  method ReadNameInto(p: array<byte>, offset: u16, domain: Domain) returns (end: u16)
    requires p.Length < 0x1_0000 && domain.Valid() && p != domain.name
    modifies domain, domain.name
    ensures domain.Valid()
    ensures ReadResult(end, domain.Contents()) == ReadName(p[..], offset)
  {
    domain.Clear();
    end := ReadNameLoop(p, offset, domain, 0);
  }

  // On any bytes at all the reader gives up or closes the name it was extending.
  lemma {:induction false} ReadLoopWellFormed(p: seq<byte>, offset: u16, name: seq<byte>, depth: nat)
    requires |p| < 0x1_0000 && |name| <= DOMAIN_MAXLEN
    ensures var r := ReadLoop(p, offset, name, depth);
            r.end == READNAME_ERROR || (|r.name| <= DOMAIN_MAXLEN && name <= r.name && WfFrom(r.name, |name|))
    decreases if depth <= MAX_JUMPS then 1 + MAX_JUMPS - depth else 0, DOMAIN_MAXLEN - |name|
  {
    if depth <= MAX_JUMPS {
      TurnExtends(p, offset, name);
      match ReadTurn(p, offset, name)
      case Fail =>
      case Close(_, _) =>
      case Label(after, longer) => ReadLoopWellFormed(p, after, longer, depth);
      case Jump(target, _) => ReadLoopWellFormed(p, target, name, depth + 1);
    }
  }

  lemma ReadNameWellFormed(p: seq<byte>, offset: u16)
    requires |p| < 0x1_0000
    ensures var r := ReadName(p, offset);
            r.end == READNAME_ERROR || (|r.name| <= DOMAIN_MAXLEN && WfName(r.name))
  {
    ReadLoopWellFormed(p, offset, [], 0);
  }
}
