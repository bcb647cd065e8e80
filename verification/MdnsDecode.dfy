// What a name in a packet means: literal labels, possibly closed by a jump to
// an earlier label (section 4.1.4 of RFC 1035), and when the bounded reader of
// ports/mdns/mdns.c finds that meaning.
module MdnsDecode {
  import opened Bytes
  import opened MdnsName

  // The bytes of q from offset spell n from position i on, following exactly that many
  // jumps.  Every jump points strictly backwards, to a non-empty literal label.
  ghost predicate Decodes(q: seq<byte>, offset: nat, n: seq<byte>, i: nat, jumps: nat)
    decreases jumps, |n| - i
  {
    && DNS_HDR <= offset < |q|
    && i < |n|
    && var c := q[offset];
       if c >= JUMP then
         && offset + 1 < |q| && jumps > 0
         && var target := JumpTarget(c, q[offset + 1]);
            DNS_HDR <= target < offset && 0 < q[target] <= LABEL_MAXLEN && Decodes(q, target, n, i, jumps - 1)
       else
         && c <= LABEL_MAXLEN && n[i] == c
         && if c == 0 then i + 1 == |n| && jumps == 0
            else
              && offset + 1 + c <= |q| && i + 1 + c < |n|
              && Spelled(q, offset, n, i, 1 + c)
              && Decodes(q, offset + 1 + c, n, i + 1 + c, jumps)
  }

  // k bytes of n from position i stand at offset.
  ghost predicate Spelled(q: seq<byte>, offset: nat, n: seq<byte>, i: nat, k: nat)
  {
    offset + k <= |q| && i + k <= |n| && forall x :: offset <= x < offset + k ==> q[x] == n[i + (x - offset)]
  }

  // The offset just behind the name.
  ghost function NameEnd(q: seq<byte>, offset: nat): nat
    decreases |q| - offset
  {
    if offset >= |q| then offset
    else if q[offset] >= JUMP then offset + 2
    else if q[offset] > LABEL_MAXLEN then offset
    else if q[offset] == 0 then offset + 1
    else NameEnd(q, offset + 1 + q[offset])
  }

  // How many bytes of the name at offset stand there literally.
  ghost function LiteralLength(q: seq<byte>, offset: nat): nat
    decreases |q| - offset
  {
    if offset >= |q| || q[offset] > LABEL_MAXLEN then 0
    else if q[offset] == 0 then 1
    else 1 + q[offset] + LiteralLength(q, offset + 1 + q[offset])
  }

  // q is a packet and p a later state of it: only the header may differ.
  ghost predicate Grows(q: seq<byte>, p: seq<byte>) {
    |q| <= |p| && forall i :: DNS_HDR <= i < |q| ==> q[i] == p[i]
  }

  lemma SpelledGrows(q: seq<byte>, p: seq<byte>, offset: nat, n: seq<byte>, i: nat, k: nat)
    requires Grows(q, p) && DNS_HDR <= offset && Spelled(q, offset, n, i, k)
    ensures Spelled(p, offset, n, i, k)
  {}

  lemma {:induction false} DecodesGrows(q: seq<byte>, p: seq<byte>, offset: nat, n: seq<byte>, i: nat, jumps: nat)
    requires Grows(q, p) && Decodes(q, offset, n, i, jumps)
    ensures Decodes(p, offset, n, i, jumps)
    ensures NameEnd(p, offset) == NameEnd(q, offset) <= |q|
    decreases jumps, |n| - i
  {
    var c := q[offset];
    if c >= JUMP {
      DecodesGrows(q, p, JumpTarget(c, q[offset + 1]), n, i, jumps - 1);
    } else if c != 0 {
      DecodesGrows(q, p, offset + 1 + c, n, i + 1 + c, jumps);
    }
  }

  // A name of k labels needs at most k jumps, and one less when it starts literally.
  lemma {:induction false} JumpsBounded(q: seq<byte>, offset: nat, n: seq<byte>, i: nat, jumps: nat)
    requires Decodes(q, offset, n, i, jumps)
    ensures WfFrom(n, i) && jumps <= LabelsFrom(n, i)
    ensures 0 < q[offset] <= LABEL_MAXLEN ==> jumps < LabelsFrom(n, i)
    decreases jumps, |n| - i
  {
    var c := q[offset];
    if c >= JUMP {
      JumpsBounded(q, JumpTarget(c, q[offset + 1]), n, i, jumps - 1);
    } else if c != 0 {
      JumpsBounded(q, offset + 1 + c, n, i + 1 + c, jumps);
    }
  }

  // Two names with the same tail.
  ghost predicate SameTail(n: seq<byte>, i: nat, n': seq<byte>, i': nat) {
    |n| - i == |n'| - i' && i <= |n| && forall x :: i <= x < |n| ==> n[x] == n'[i' + (x - i)]
  }

  lemma {:induction false} DecodesSameTail(
    q: seq<byte>, offset: nat, n: seq<byte>, i: nat, n': seq<byte>, i': nat, jumps: nat)
    requires Decodes(q, offset, n, i, jumps) && SameTail(n, i, n', i')
    ensures Decodes(q, offset, n', i', jumps)
    decreases jumps, |n| - i
  {
    var c := q[offset];
    if c >= JUMP {
      DecodesSameTail(q, JumpTarget(c, q[offset + 1]), n, i, n', i', jumps - 1);
    } else if c != 0 {
      DecodesSameTail(q, offset + 1 + c, n, i + 1 + c, n', i' + 1 + c, jumps);
    }
  }

  // The reader's turn over a literal label of n.
  lemma SpelledTurn(p: seq<byte>, offset: nat, n: seq<byte>, i: nat)
    requires |p| < 0xFFFF && |n| <= DOMAIN_MAXLEN && i < |n| && 0 < n[i] <= LABEL_MAXLEN && i + 1 + n[i] < |n|
    requires Spelled(p, offset, n, i, 1 + n[i])
    ensures ReadTurn(p, offset, n[..i]) == Label(offset + 1 + n[i], n[..i + 1 + n[i]])
  {
    var c := n[i];
    assert p[offset] == n[i + (offset - offset)];
    var longer := n[..i] + [c] + p[offset + 1..offset + 1 + c];
    forall x | i <= x < i + 1 + c ensures longer[x] == n[x] {
      assert p[offset + (x - i)] == n[i + (x - i)];
    }
    assert longer == n[..i + 1 + c];
  }

  // The reader's turn where a name decodes.
  lemma TurnFollows(p: seq<byte>, offset: nat, n: seq<byte>, i: nat, jumps: nat)
    requires |p| < 0xFFFF && |n| <= DOMAIN_MAXLEN && Decodes(p, offset, n, i, jumps)
    ensures var c := p[offset];
            ReadTurn(p, offset, n[..i]) ==
            if c >= JUMP then Jump(JumpTarget(c, p[offset + 1]), offset + 2)
            else if c == 0 then Close(offset + 1, n)
            else Label(offset + 1 + c, n[..i + 1 + c])
  {
    hide ReadTurn;
    var c := p[offset];
    if c >= JUMP {
      JumpingTurn(p, offset, n[..i]);
    } else if c == 0 {
      ClosingTurn(p, offset, n[..i]);
      assert n[..i] + [0] == n;
    } else {
      SpelledTurn(p, offset, n, i);
    }
  }

  lemma ClosingTurn(p: seq<byte>, offset: nat, name: seq<byte>)
    requires |p| < 0xFFFF && offset < |p| && p[offset] == 0 && |name| < DOMAIN_MAXLEN
    ensures ReadTurn(p, offset, name) == Close(offset + 1, name + [0])
  {}

  lemma JumpingTurn(p: seq<byte>, offset: nat, name: seq<byte>)
    requires |p| < 0xFFFF && offset + 1 < |p| && p[offset] >= JUMP && |name| <= DOMAIN_MAXLEN
    requires DNS_HDR <= JumpTarget(p[offset], p[offset + 1]) < |p|
    ensures ReadTurn(p, offset, name) == Jump(JumpTarget(p[offset], p[offset + 1]), offset + 2)
  {}

  // The bounded reader finds exactly the names within its jump limit.
  lemma {:induction false} ReaderFindsTail(p: seq<byte>, offset: nat, n: seq<byte>, i: nat, jumps: nat, depth: nat)
    requires |p| < 0xFFFF && |n| <= DOMAIN_MAXLEN && Decodes(p, offset, n, i, jumps)
    ensures NameEnd(p, offset) <= |p|
    ensures var r := ReadLoop(p, offset, n[..i], depth);
            if jumps + depth <= MAX_JUMPS then r.end == NameEnd(p, offset) && r.name == n else r.end == READNAME_ERROR
    decreases jumps, |n| - i
  {
    hide ReadTurn;
    var c := p[offset];
    DecodesGrows(p, p, offset, n, i, jumps);
    if depth <= MAX_JUMPS {
      TurnFollows(p, offset, n, i, jumps);
      if c >= JUMP {
        ReaderFindsTail(p, JumpTarget(c, p[offset + 1]), n, i, jumps - 1, depth + 1);
      } else if c != 0 {
        ReaderFindsTail(p, offset + 1 + c, n, i + 1 + c, jumps, depth);
      }
    }
  }

  lemma ReaderFindsName(p: seq<byte>, offset: nat, n: seq<byte>, jumps: nat)
    requires |p| < 0xFFFF && |n| <= DOMAIN_MAXLEN && Decodes(p, offset, n, 0, jumps)
    ensures NameEnd(p, offset) <= |p|
    ensures jumps <= 5 ==> ReadName(p, offset) == ReadResult(NameEnd(p, offset), n)
    ensures jumps > 5 ==> ReadName(p, offset).end == 0xFFFF
  {
    assert n[..0] == [];
    ReaderFindsTail(p, offset, n, 0, jumps, 0);
  }

  // ------------------------------------------- the literal part of a name

  // k bytes of n stand at offset; a jump follows unless they close the name.
  ghost predicate LiteralThenJump(q: seq<byte>, offset: nat, n: seq<byte>, i: nat, jumps: nat, k: nat)
  {
    && WfFrom(n, i) && Spelled(q, offset, n, i, k)
    && if i + k == |n| then jumps == 0 && NameEnd(q, offset) == offset + k
       else && Boundary(n, i, i + k) && n[i + k] <= LABEL_MAXLEN && offset + k < |q| && q[offset + k] >= JUMP
            && NameEnd(q, offset) == offset + k + 2
            && Decodes(q, offset + k, n, i + k, jumps)
  }

  lemma {:induction false} LiteralPart(q: seq<byte>, offset: nat, n: seq<byte>, i: nat, jumps: nat)
    requires Decodes(q, offset, n, i, jumps)
    ensures LiteralThenJump(q, offset, n, i, jumps, LiteralLength(q, offset))
    decreases |n| - i
  {
    var c := q[offset];
    JumpsBounded(q, offset, n, i, jumps);
    if c < JUMP && c != 0 {
      LiteralPart(q, offset + 1 + c, n, i + 1 + c, jumps);
    }
  }

  // k bytes of d from position i stand at offset; then d ends, or the rest decodes from there.
  lemma {:induction false} LiteralThenRest(q: seq<byte>, offset: nat, d: seq<byte>, i: nat, k: nat, jumps: nat)
    requires WfFrom(d, i) && DNS_HDR <= offset && Spelled(q, offset, d, i, k)
    requires if i + k == |d| then jumps == 0
             else Boundary(d, i, i + k) && Decodes(q, offset + k, d, i + k, jumps)
    ensures Decodes(q, offset, d, i, jumps)
    ensures NameEnd(q, offset) == if i + k == |d| then offset + k else NameEnd(q, offset + k)
    decreases |d| - i
  {
    if k > 0 {
      assert q[offset] == d[i + (offset - offset)];
    }
    if k > 0 && d[i] != 0 {
      LiteralThenRest(q, offset + 1 + d[i], d, i + 1 + d[i], k - 1 - d[i], jumps);
    }
  }

  // If a jump stands where d has no length byte, d cannot be what the reader returns.
  lemma {:induction false} StraddledLabelMisread(p: seq<byte>, offset: nat, d: seq<byte>, i: nat, k: nat, depth: nat)
    requires |p| < 0xFFFF && |d| < DOMAIN_MAXLEN && WfFrom(d, i)
    requires i + k < |d| && offset + k < |p| && Spelled(p, offset, d, i, k)
    requires p[offset + k] >= JUMP && d[i + k] < JUMP && !Boundary(d, i, i + k)
    ensures var r := ReadLoop(p, offset, d[..i], depth); r.end == READNAME_ERROR || r.name != d
    decreases |d| - i
  {
    hide ReadTurn;
    var c := d[i];
    var r := ReadLoop(p, offset, d[..i], depth);
    if r.end != READNAME_ERROR {
      var longer := StraddlingTurn(p, offset, d, i, k);
      ReadLoopWellFormed(p, offset + 1 + c, longer, depth);
      if k > c {
        forall x | i <= x < i + 1 + c ensures longer[x] == d[x] {
          assert p[offset + (x - i)] == d[i + (x - i)];
        }
        assert longer == d[..i + 1 + c];
        StraddledLabelMisread(p, offset + 1 + c, d, i + 1 + c, k - 1 - c, depth);
      } else {
        assert r.name[i + k] == p[offset + k];
      }
    }
  }

  lemma StraddlingTurn(p: seq<byte>, offset: nat, d: seq<byte>, i: nat, k: nat) returns (longer: seq<byte>)
    requires |p| < 0xFFFF && |d| < DOMAIN_MAXLEN && WfFrom(d, i) && 0 < k
    requires i + k < |d| && offset + k < |p| && Spelled(p, offset, d, i, k) && d[i] != 0
    ensures var t := ReadTurn(p, offset, d[..i]);
            t == Fail || (t == Label(offset + 1 + d[i], longer) && |longer| == i + 1 + d[i] && d[..i] <= longer
                          && Spelled(p, offset, longer, i, 1 + d[i]))
  {
    var c := d[i];
    if offset + 1 + c <= |p| {
      longer := d[..i] + [c] + p[offset + 1..offset + 1 + c];
    } else {
      longer := [];
    }
  }
}
