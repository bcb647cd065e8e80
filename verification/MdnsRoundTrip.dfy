// A compressed name reads back as the name that was written: exactly when, for a
// write of any name, and that writes of tidy names always do.
module MdnsRoundTrip {
  import opened Bytes
  import opened MdnsName
  import opened MdnsDecode
  import opened MdnsWriter

  // ---------------------------------------------------- where a jump lands

  // A jump into name t, which stands at entry of packet q, for the tail of d from k.
  ghost function LandingPos(t: seq<byte>, d: seq<byte>, k: nat): nat
    requires k <= |d| && |d| - k <= |t|
  {
    |t| - (|d| - k)
  }

  // The reader, after the jump, meets t's own jump between two labels of d, or not at all.
  ghost predicate Aligned(q: seq<byte>, entry: nat, t: seq<byte>, d: seq<byte>, k: nat)
    requires WfName(d) && k <= |d| && |d| - k <= |t|
  {
    var meets := LiteralLength(q, entry) - LandingPos(t, d, k);
    LiteralLength(q, entry) >= |t| || (WfFrom(d, k) && meets >= 0 && Boundary(d, k, k + meets))
  }

  lemma LiteralRoom(q: seq<byte>, entry: nat, t: seq<byte>, jumps: nat)
    requires Decodes(q, entry, t, 0, jumps) && |t| < DOMAIN_MAXLEN
    ensures var lit := LiteralLength(q, entry);
            && lit <= |t| && entry + lit <= |q|
            && (lit < |t| ==> lit + 3 <= |t|)
            && U8(NameEnd(q, entry) - entry) == lit + if lit == |t| then 0 else JUMP_SIZE
  {
    LiteralPart(q, entry, t, 0, jumps);
    var lit := LiteralLength(q, entry);
    if lit < |t| {
      BoundaryWf(t, 0, lit);
      JumpTargetLiteral(q, entry + lit, t, lit, jumps);
    }
  }

  lemma JumpTargetLiteral(q: seq<byte>, offset: nat, n: seq<byte>, i: nat, jumps: nat)
    requires Decodes(q, offset, n, i, jumps) && q[offset] >= JUMP
    ensures n[i] != 0
  {
    assert Decodes(q, JumpTarget(q[offset], q[offset + 1]), n, i, jumps - 1);
  }

  lemma TailSpelled(q: seq<byte>, entry: nat, t: seq<byte>, lit: nat, d: seq<byte>, k: nat, pos: nat)
    requires Spelled(q, entry, t, 0, lit) && SameTail(d, k, t, pos) && pos <= lit
    ensures Spelled(q, entry + pos, d, k, lit - pos)
  {
    forall x | entry + pos <= x < entry + pos + (lit - pos) ensures q[x] == d[k + (x - (entry + pos))] {
      assert q[x] == t[0 + (x - entry)];
      assert d[k + (x - (entry + pos))] == t[pos + (k + (x - (entry + pos)) - k)];
    }
  }

  // Where the jump lands stands d's tail, up to the entry's own jump.
  lemma LandingSpelled(q: seq<byte>, entry: nat, t: seq<byte>, jumps: nat, d: seq<byte>, k: nat)
    requires Decodes(q, entry, t, 0, jumps) && |t| < DOMAIN_MAXLEN && WfName(d) && Boundary(d, 0, k)
    requires Reuses(t, U8(NameEnd(q, entry) - entry), d, k)
    ensures var pos, lit := LandingPos(t, d, k), LiteralLength(q, entry);
            && pos < lit <= |t| && DNS_HDR <= entry && entry + lit <= |q| && WfFrom(d, k)
            && Spelled(q, entry + pos, d, k, lit - pos)
            && 0 < q[entry + pos] <= LABEL_MAXLEN
  {
    LiteralRoom(q, entry, t, jumps);
    LiteralPart(q, entry, t, 0, jumps);
    BoundaryWf(d, 0, k);
    var pos := LandingPos(t, d, k);
    TailSpelled(q, entry, t, LiteralLength(q, entry), d, k, pos);
    assert q[entry + pos] == d[k + (entry + pos - (entry + pos))];
  }

  lemma AlignedLanding(q: seq<byte>, entry: nat, t: seq<byte>, jumps: nat, d: seq<byte>, k: nat)
    requires Decodes(q, entry, t, 0, jumps) && |t| < DOMAIN_MAXLEN && WfName(d) && Boundary(d, 0, k)
    requires Reuses(t, U8(NameEnd(q, entry) - entry), d, k) && Aligned(q, entry, t, d, k)
    ensures Decodes(q, entry + LandingPos(t, d, k), d, k, jumps)
  {
    hide SameTail, Decodes, Spelled, Boundary, LiteralLength, NameEnd;
    var pos, lit := LandingPos(t, d, k), LiteralLength(q, entry);
    LiteralPart(q, entry, t, 0, jumps);
    LandingSpelled(q, entry, t, jumps, d, k);
    if lit < |t| {
      SameTailLater(t, pos, d, k, lit - pos);
      DecodesSameTail(q, entry + lit, t, lit, d, k + (lit - pos), jumps);
    }
    LiteralThenRest(q, entry + pos, d, k, lit - pos, jumps);
  }

  lemma SameTailLater(t: seq<byte>, i: nat, d: seq<byte>, k: nat, x: nat)
    requires SameTail(d, k, t, i) && x <= |t| - i
    ensures SameTail(t, i + x, d, k + x)
  {
    forall y | i + x <= y < |t| ensures t[y] == d[k + x + (y - (i + x))] {
      assert d[k + (y - i)] == t[i + (k + (y - i) - k)];
    }
  }

  // ------------------------------------------------------------ tidy names

  lemma {:induction false} BoundaryBetween(n: seq<byte>, i: nat, a: nat, b: nat)
    requires WfFrom(n, i) && Boundary(n, i, a) && Boundary(n, i, b) && a <= b
    ensures WfFrom(n, a) && Boundary(n, a, b)
    decreases |n| - i
  {
    if i < a {
      BoundaryBetween(n, i + 1 + n[i], a, b);
    }
  }

  lemma SameTailHead(t: seq<byte>, i: nat, d: seq<byte>, k: nat)
    requires SameTail(d, k, t, i) && k < |d|
    ensures i < |t| && t[i] == d[k]
    ensures k + 1 + d[k] <= |d| ==> SameTail(d, k + 1 + d[k], t, i + 1 + d[k])
  {
    assert d[k] == t[i + (k - k)];
    var c := d[k];
    forall y | k + 1 + c <= y < |d| ensures d[y] == t[i + 1 + c + (y - (k + 1 + c))] {
      assert d[y] == t[i + (y - k)];
    }
  }

  lemma {:induction false} BoundarySameTail(t: seq<byte>, i: nat, d: seq<byte>, k: nat, x: nat)
    requires WfFrom(t, i) && WfFrom(d, k) && SameTail(d, k, t, i) && Boundary(t, i, i + x)
    ensures Boundary(d, k, k + x)
    decreases |t| - i
  {
    hide SameTail;
    if x > 0 {
      SameTailHead(t, i, d, k);
      BoundarySameTail(t, i + 1 + d[k], d, k + 1 + d[k], x - 1 - d[k]);
    }
  }

  lemma {:induction false} SeparatedLength(d: seq<byte>, i: nat, m: nat, k: nat)
    requires WfFrom(d, i) && Separated(d, i, m) && Boundary(d, i, k) && k < |d| && d[k] != 0
    ensures d[k] < m
    decreases |d| - i
  {
    if i < k {
      SeparatedLength(d, i + 1 + d[i], m, k);
    }
  }

  // Between separated names a match can only start at a label of both.
  lemma SeparatedAligned(q: seq<byte>, entry: nat, t: seq<byte>, jumps: nat, d: seq<byte>, k: nat, m: nat)
    requires Decodes(q, entry, t, 0, jumps) && |t| < DOMAIN_MAXLEN && WfName(d) && Boundary(d, 0, k)
    requires Reuses(t, U8(NameEnd(q, entry) - entry), d, k)
    requires WfName(t) && Separated(t, 0, m) && Separated(d, 0, m)
    ensures Aligned(q, entry, t, d, k)
  {
    hide Decodes, Spelled, LiteralLength, NameEnd;
    var pos, lit := LandingPos(t, d, k), LiteralLength(q, entry);
    LiteralPart(q, entry, t, 0, jumps);
    LandingSpelled(q, entry, t, jumps, d, k);
    SeparatedLength(d, 0, m, k);
    assert d[k] == t[pos];
    SmallByteIsBoundary(t, 0, m, pos);
    if lit < |t| {
      BoundaryBetween(t, 0, pos, lit);
      BoundarySameTail(t, pos, d, k, lit - pos);
    }
  }

  // ------------------------------------------------------- the offset table

  // Which names a packet's writer is restricted to.
  datatype Rule = AnyNames | Tidy(m: nat)

  // A tidy name has labels that are all shorter than m and made of bytes from m up.
  ghost predicate Allowed(d: seq<byte>, rule: Rule)
    requires WfName(d)
  {
    rule.Tidy? ==> Separated(d, 0, rule.m)
  }

  ghost predicate NameAt(q: seq<byte>, offset: nat, n: seq<byte>, jumps: nat, rule: Rule) {
    && Decodes(q, offset, n, 0, jumps) && q[offset] <= LABEL_MAXLEN
    && Writable(n) && Allowed(n, rule)
  }

  ghost predicate Entry(q: seq<byte>, offset: nat, rule: Rule) {
    exists n, jumps :: NameAt(q, offset, n, jumps, rule)
  }

  // Every remembered offset starts a name that lies wholly in q.
  ghost predicate Table(q: seq<byte>, offsets: seq<nat>, rule: Rule) {
    forall i :: 0 <= i < |offsets| && offsets[i] != 0 ==> Entry(q, offsets[i], rule)
  }

  ghost predicate Inv(o: Out, rule: Rule) {
    ValidOut(o) && o.woff <= |o.buf| && Table(o.buf[..o.woff], o.offsets, rule)
  }

  lemma EntryGrows(q: seq<byte>, p: seq<byte>, offset: nat, rule: Rule)
    requires Entry(q, offset, rule) && Grows(q, p)
    ensures Entry(p, offset, rule)
  {
    var n, jumps :| NameAt(q, offset, n, jumps, rule);
    DecodesGrows(q, p, offset, n, 0, jumps);
    assert NameAt(p, offset, n, jumps, rule);
  }

  // The search took its cut from the offset entry of the table, where the reader finds t.
  ghost predicate Chosen(o: Out, q: seq<byte>, d: seq<byte>, c: Cut, entry: nat, t: seq<byte>)
    requires ValidOut(o) && Writable(d)
  {
    && entry != 0 && entry in o.offsets && c == Compress(o.buf, entry, d)
    && ReadName(o.buf, entry).end == NameEnd(q, entry) && ReadName(o.buf, entry).name == t
  }

  lemma IsChosen(o: Out, q: seq<byte>, d: seq<byte>, c: Cut, slot: nat, t: seq<byte>)
    requires ValidOut(o) && Writable(d) && slot < NUM_DOMAIN_OFFSETS && o.offsets[slot] != 0
    requires c == Compress(o.buf, o.offsets[slot], d)
    requires ReadName(o.buf, o.offsets[slot]).end == NameEnd(q, o.offsets[slot])
    requires ReadName(o.buf, o.offsets[slot]).name == t
    ensures Chosen(o, q, d, c, o.offsets[slot], t)
  {
    hide Compress, ReadName, NameEnd;
  }

  // The cut c of d jumps into the name t of the entry it was taken from, when the table's
  // names lie in q; the reader comes to t's end with this many jumps.
  ghost predicate JumpUses(o: Out, q: seq<byte>, d: seq<byte>, c: Cut, entry: nat, t: seq<byte>, jumps: nat)
    requires ValidOut(o) && Writable(d)
  {
    Chosen(o, q, d, c, entry, t) && JumpInto(q, d, c, entry, t, jumps)
  }

  ghost predicate JumpInto(q: seq<byte>, d: seq<byte>, c: Cut, entry: nat, t: seq<byte>, jumps: nat)
    requires Writable(d)
  {
    && Decodes(q, entry, t, 0, jumps) && Writable(t) && jumps <= MAX_JUMPS
    && Boundary(d, 0, c.writelen)
    && Reuses(t, U8(NameEnd(q, entry) - entry), d, c.writelen)
    && c.jump == entry + LandingPos(t, d, c.writelen)
  }

  lemma CutEntry(o: Out, q: seq<byte>, d: seq<byte>, skip: bool, rule: Rule)
    returns (entry: nat, t: seq<byte>, jumps: nat)
    requires ValidOut(o) && Grows(q, o.buf) && Table(q, o.offsets, rule) && Writable(d)
    ensures var c := BestCut(o, d, skip);
            c.writelen < |d| ==> JumpUses(o, q, d, c, entry, t, jumps) && Allowed(t, rule)
  {
    hide BestCut, Compress, ReadName, Decodes, Boundary, SameTail, LiteralLength, NameEnd, NoneShorter;
    hide Separated, WfFrom;
    hide Chosen;
    entry, t, jumps := 0, [0], 0;
    var slot := BestCutMeaning(o, d, skip);
    var c := BestCut(o, d, skip);
    if c.writelen < |d| {
      entry := o.offsets[slot];
      t, jumps :| NameAt(q, entry, t, jumps, rule);
      DecodesGrows(q, o.buf, entry, t, 0, jumps);
      ReaderFindsName(o.buf, entry, t, jumps);
      IsChosen(o, q, d, c, slot, t);
    }
  }

  lemma JumpDecodes(q: seq<byte>, offset: nat, n: seq<byte>, i: nat, jumps: nat)
    requires DNS_HDR <= offset && offset + 1 < |q| && q[offset] >= JUMP
    requires var target := JumpTarget(q[offset], q[offset + 1]);
             DNS_HDR <= target < offset && 0 < q[target] <= LABEL_MAXLEN && Decodes(q, target, n, i, jumps)
    ensures Decodes(q, offset, n, i, jumps + 1) && NameEnd(q, offset) == offset + JUMP_SIZE
  {}

  // p is a later state of the packet that still holds what a write added to q.
  ghost predicate Holds(p: seq<byte>, q: seq<byte>, o: Out, o': Out) {
    && Grows(q, p) && |q| <= o.woff <= o'.woff <= |p| < 0xFFFF && o'.woff <= |o'.buf|
    && forall i :: o.woff <= i < o'.woff ==> p[i] == o'.buf[i]
  }

  lemma CutBytes(o: Out, d: seq<byte>, c: Cut, o': Out, q: seq<byte>, p: seq<byte>)
    requires ValidOut(o) && Writable(d) && WroteCut(o, d, c, o') && Holds(p, q, o, o')
    ensures Spelled(p, o.woff, d, 0, c.writelen) && (c.writelen > 0 ==> p[o.woff] == d[0])
    ensures var at := o.woff + c.writelen;
            if c.jump == 0 then c.writelen == |d| && o'.woff == at
            else && c.writelen < |d| && at + 1 < |p| && p[at] >= JUMP && JumpTarget(p[at], p[at + 1]) == c.jump
                 && o'.woff == at + JUMP_SIZE
  {
    hide WfFrom;
  }

  // A literal part and a sound jump make up the whole name.
  lemma CutDecodes(o: Out, d: seq<byte>, c: Cut, o': Out, q: seq<byte>, p: seq<byte>, jumps: nat)
    requires ValidOut(o) && Writable(d) && WroteCut(o, d, c, o') && Holds(p, q, o, o')
    requires c.jump != 0 ==> Boundary(d, 0, c.writelen) && DNS_HDR <= c.jump < |q| && 0 < q[c.jump] <= LABEL_MAXLEN
                             && Decodes(q, c.jump, d, c.writelen, jumps)
    ensures Decodes(p, o.woff, d, 0, if c.jump == 0 then 0 else jumps + 1)
    ensures NameEnd(p, o.woff) == o'.woff && (c.writelen > 0 ==> p[o.woff] == d[0])
  {
    hide Boundary, Decodes, WroteCut, Spelled, NameEnd, WfFrom;
    CutBytes(o, d, c, o', q, p);
    if c.jump != 0 {
      DecodesGrows(q, p, c.jump, d, c.writelen, jumps);
      BoundaryWf(d, 0, c.writelen);
      JumpDecodes(p, o.woff + c.writelen, d, c.writelen, jumps);
    }
    LiteralThenRest(p, o.woff, d, 0, c.writelen, if c.jump == 0 then 0 else jumps + 1);
  }

  // -------------------------------------------------------- the theorems

  lemma TableKept(o: Out, d: seq<byte>, c: Cut, o': Out, q: seq<byte>, p: seq<byte>, jumps: nat, rule: Rule)
    requires ValidOut(o) && Writable(d) && Allowed(d, rule) && WroteCut(o, d, c, o')
    requires Table(q, o.offsets, rule) && Grows(q, p)
    requires Decodes(p, o.woff, d, 0, jumps) && (c.writelen > 0 ==> p[o.woff] == d[0])
    ensures Table(p, o'.offsets, rule)
  {
    hide Entry, Decodes, Allowed;
    forall i | 0 <= i < NUM_DOMAIN_OFFSETS && o'.offsets[i] != 0
      ensures Entry(p, o'.offsets[i], rule)
    {
      if o'.offsets[i] == o.offsets[i] {
        EntryGrows(q, p, o.offsets[i], rule);
      } else {
        NewEntry(p, o.woff, d, jumps, rule);
      }
    }
  }

  lemma NewEntry(q: seq<byte>, offset: nat, d: seq<byte>, jumps: nat, rule: Rule)
    requires Writable(d) && Allowed(d, rule) && Decodes(q, offset, d, 0, jumps) && q[offset] == d[0]
    ensures Entry(q, offset, rule)
  {
    assert NameAt(q, offset, d, jumps, rule);
  }

  // The reader walks over literal labels.
  lemma {:induction false} ThroughLiteral(p: seq<byte>, offset: nat, d: seq<byte>, i: nat, k: nat)
    requires |p| < 0xFFFF && |d| < DOMAIN_MAXLEN && WfFrom(d, i) && Boundary(d, i, i + k) && i + k < |d|
    requires Spelled(p, offset, d, i, k)
    ensures ReadLoop(p, offset, d[..i], 0) == ReadLoop(p, offset + k, d[..i + k], 0)
    decreases k
  {
    hide ReadTurn;
    if k > 0 {
      SpelledTurn(p, offset, d, i);
      ThroughLiteral(p, offset + 1 + d[i], d, i + 1 + d[i], k - 1 - d[i]);
    }
  }

  lemma ThroughJump(p: seq<byte>, offset: nat, d: seq<byte>, k: nat, target: nat)
    requires |p| < 0xFFFF && |d| < DOMAIN_MAXLEN && WfName(d) && Boundary(d, 0, k) && k < |d|
    requires Spelled(p, offset, d, 0, k) && offset + k + 1 < |p| && p[offset + k] >= JUMP
    requires JumpTarget(p[offset + k], p[offset + k + 1]) == target && DNS_HDR <= target < |p|
    ensures var r := ReadLoop(p, target, d[..k], 1);
            ReadName(p, offset) ==
            if r.end == READNAME_ERROR then r else ReadResult(offset + k + JUMP_SIZE, r.name)
  {
    hide ReadTurn;
    assert d[..0] == [];
    ThroughLiteral(p, offset, d, 0, k);
    JumpTurn(p, offset + k, d[..k]);
    ReadLoopTurn(p, offset + k, d[..k], 0);
  }

  // ------------------------------------------------- exactly when, for a write

  // The name that was written lies at offset, up to end.
  ghost predicate ReadsBack(p: seq<byte>, offset: nat, end: nat, d: seq<byte>)
    requires |p| < 0x1_0000 && offset < 0x1_0000
  {
    ReadName(p, offset).end == end && ReadName(p, offset).name == d
  }

  lemma DecodedReadsBack(p: seq<byte>, offset: nat, end: nat, d: seq<byte>, jumps: nat)
    requires |p| < 0xFFFF && offset < |p| && |d| <= DOMAIN_MAXLEN
    requires Decodes(p, offset, d, 0, jumps) && NameEnd(p, offset) == end
    ensures ReadsBack(p, offset, end, d) <==> jumps <= MAX_JUMPS
    ensures jumps > MAX_JUMPS ==> ReadName(p, offset).end == READNAME_ERROR
  {
    hide Decodes, ReadName, NameEnd;
    ReaderFindsName(p, offset, d, jumps);
  }

  // The reading side of one write, in terms of the entry it reuses, in any later state p.
  lemma MisalignedMisread(
    o: Out, d: seq<byte>, c: Cut, o': Out, q: seq<byte>, p: seq<byte>, entry: nat, t: seq<byte>, jumps: nat)
    requires ValidOut(o) && Writable(d) && WroteCut(o, d, c, o') && c.writelen < |d| && Holds(p, q, o, o')
    requires JumpInto(q, d, c, entry, t, jumps) && !Aligned(q, entry, t, d, c.writelen)
    ensures ReadName(p, o.woff).end == READNAME_ERROR || ReadName(p, o.woff).name != d
  {
    hide Decodes, Boundary, NameEnd, ReadTurn, ReadLoop, LiteralLength, WfFrom, Chosen;
    var k := c.writelen;
    var pos, lit := LandingPos(t, d, k), LiteralLength(q, entry);
    LandingSpelled(q, entry, t, jumps, d, k);
    LiteralPart(q, entry, t, 0, jumps);
    SpelledGrows(q, p, c.jump, d, k, lit - pos);
    assert Spelled(p, o.woff, d, 0, k);
    hide Spelled;
    ThroughJump(p, o.woff, d, k, c.jump);
    assert d[k + (lit - pos)] == t[pos + (k + (lit - pos) - k)];
    StraddledLabelMisread(p, c.jump, d, k, lit - pos, 1);
  }

  // The jump of a write keeps to the labels of d, and the name jumped into has one to spare.
  ghost predicate CleanJump(o: Out, q: seq<byte>, d: seq<byte>, c: Cut, entry: nat, t: seq<byte>, jumps: nat)
    requires ValidOut(o) && Writable(d)
  {
    JumpUses(o, q, d, c, entry, t, jumps) && Aligned(q, entry, t, d, c.writelen) && jumps < MAX_JUMPS
  }

  // A write that does not jump, or jumps cleanly.
  ghost predicate Clean(o: Out, q: seq<byte>, d: seq<byte>, skip: bool)
    requires ValidOut(o) && Writable(d)
  {
    var c := BestCut(o, d, skip);
    c.jump == 0 || exists entry: nat, t, jumps: nat :: CleanJump(o, q, d, c, entry, t, jumps)
  }

  // A clean write is spelled in every later state p of the packet, with jumps the reader can
  // make, and keeps the table sound.
  lemma CleanWrite(o: Out, q: seq<byte>, d: seq<byte>, skip: bool, rule: Rule, p: seq<byte>) returns (jumps: nat)
    requires ValidOut(o) && Grows(q, o.buf) && Table(q, o.offsets, rule)
    requires Writable(d) && Allowed(d, rule) && o.woff + |d| <= |o.buf| && Clean(o, q, d, skip)
    requires Holds(p, q, o, WriteDomain(o, d, skip).out)
    ensures var w := WriteDomain(o, d, skip);
            && jumps <= MAX_JUMPS && Decodes(p, o.woff, d, 0, jumps) && NameEnd(p, o.woff) == w.out.woff
            && Table(p, w.out.offsets, rule)
  {
    hide BestCut, WriteDomain, Decodes, NameEnd, Table, JumpUses, Aligned, Allowed;
    var w, c := WriteDomain(o, d, skip), BestCut(o, d, skip);
    WriteWithinBounds(o, d, skip);
    jumps := 0;
    if c.jump == 0 {
      CutDecodes(o, d, c, w.out, q, p, 0);
    } else {
      var entry: nat, t, inner: nat :| CleanJump(o, q, d, c, entry, t, inner);
      JumpWrite(o, q, d, c, w.out, p, entry, t, inner);
      jumps := inner + 1;
    }
    TableKept(o, d, c, w.out, q, p, jumps, rule);
  }

  // Whatever entry an aligned jump leads to, the name takes one jump more.
  lemma JumpWrite(
    o: Out, q: seq<byte>, d: seq<byte>, c: Cut, o': Out, p: seq<byte>, entry: nat, t: seq<byte>, jumps: nat)
    requires ValidOut(o) && Grows(q, o.buf) && Writable(d) && WroteCut(o, d, c, o') && c.jump != 0
    requires JumpUses(o, q, d, c, entry, t, jumps) && Aligned(q, entry, t, d, c.writelen) && Holds(p, q, o, o')
    ensures Decodes(p, o.woff, d, 0, jumps + 1) && NameEnd(p, o.woff) == o'.woff
    ensures c.writelen > 0 ==> p[o.woff] == d[0]
  {
    hide Decodes, Boundary, NameEnd, Spelled, LiteralLength, Aligned, Chosen, SameTail;
    AlignedLanding(q, entry, t, jumps, d, c.writelen);
    LandingSpelled(q, entry, t, jumps, d, c.writelen);
    CutDecodes(o, d, c, o', q, p, jumps);
  }

  // Any name at all, written over any sound table: in every later state of the packet it reads
  // back if and only if the write was clean.
  lemma ReadsBackExactly(o: Out, q: seq<byte>, d: seq<byte>, skip: bool, p: seq<byte>)
    requires ValidOut(o) && Grows(q, o.buf) && Table(q, o.offsets, AnyNames)
    requires Writable(d) && o.woff + |d| <= |o.buf| && Holds(p, q, o, WriteDomain(o, d, skip).out)
    ensures ReadsBack(p, o.woff, WriteDomain(o, d, skip).out.woff, d) <==> Clean(o, q, d, skip)
    ensures !Clean(o, q, d, skip) ==> ReadName(p, o.woff).end == READNAME_ERROR || ReadName(p, o.woff).name != d
  {
    hide BestCut, WriteDomain, Decodes, NameEnd, Table, JumpUses, Aligned, ReadsBack;
    var w, c := WriteDomain(o, d, skip).out, BestCut(o, d, skip);
    WriteWithinBounds(o, d, skip);
    WithinPacket(o, d, skip, q, p);
    if Clean(o, q, d, skip) {
      var jumps := CleanWrite(o, q, d, skip, AnyNames, p);
      DecodedReadsBack(p, o.woff, w.woff, d, jumps);
    } else {
      var entry, t, jumps := CutEntry(o, q, d, skip, AnyNames);
      UncleanMisread(o, q, d, c, w, p, entry, t, jumps);
      NotReadBack(p, o.woff, w.woff, d);
    }
  }

  lemma UncleanMisread(
    o: Out, q: seq<byte>, d: seq<byte>, c: Cut, o': Out, p: seq<byte>, entry: nat, t: seq<byte>, jumps: nat)
    requires ValidOut(o) && Grows(q, o.buf) && Writable(d) && WroteCut(o, d, c, o') && c.jump != 0
    requires JumpUses(o, q, d, c, entry, t, jumps) && !CleanJump(o, q, d, c, entry, t, jumps)
    requires Holds(p, q, o, o') && o.woff < |p|
    ensures ReadName(p, o.woff).end == READNAME_ERROR || ReadName(p, o.woff).name != d
  {
    hide Decodes, Aligned, NameEnd, Chosen, Boundary, SameTail, ReadName, ReadsBack;
    if Aligned(q, entry, t, d, c.writelen) {
      JumpWrite(o, q, d, c, o', p, entry, t, jumps);
      DecodedReadsBack(p, o.woff, o'.woff, d, jumps + 1);
    } else {
      MisalignedMisread(o, d, c, o', q, p, entry, t, jumps);
    }
  }

  lemma WithinPacket(o: Out, d: seq<byte>, skip: bool, q: seq<byte>, p: seq<byte>)
    requires ValidOut(o) && Writable(d) && o.woff + |d| <= |o.buf| && Holds(p, q, o, WriteDomain(o, d, skip).out)
    ensures o.woff < WriteDomain(o, d, skip).out.woff <= |p| < 0xFFFF
  {
    hide WriteDomain, BestCut;
    WriteWithinBounds(o, d, skip);
  }

  lemma NotReadBack(p: seq<byte>, offset: nat, end: nat, d: seq<byte>)
    requires |p| < 0xFFFF && offset < |p| && end <= |p|
    requires ReadName(p, offset).end == READNAME_ERROR || ReadName(p, offset).name != d
    ensures !ReadsBack(p, offset, end, d)
  {
    hide ReadName;
  }

  // After a clean write the table is sound again, so that the next write can be judged.
  lemma CleanKeepsTable(o: Out, d: seq<byte>, skip: bool, rule: Rule)
    requires Inv(o, rule) && Writable(d) && Allowed(d, rule) && o.woff + |d| <= |o.buf|
    requires Clean(o, o.buf[..o.woff], d, skip)
    ensures Inv(WriteDomain(o, d, skip).out, rule)
  {
    hide WriteDomain, BestCut, Table, Clean, Decodes, NameEnd;
    var w := WriteDomain(o, d, skip).out;
    WriteWithinBounds(o, d, skip);
    var jumps := CleanWrite(o, o.buf[..o.woff], d, skip, rule, w.buf[..w.woff]);
  }

  // -------------------------------------------------------- tidy names

  // A tidy name of at most five labels is written cleanly, and one of six unless it becomes
  // a bare jump.
  lemma TidyIsClean(o: Out, q: seq<byte>, d: seq<byte>, skip: bool, m: nat)
    requires ValidOut(o) && Grows(q, o.buf) && |q| <= o.woff <= |o.buf| && Table(q, o.offsets, Tidy(m))
    requires Writable(d) && Allowed(d, Tidy(m)) && o.woff + |d| <= |o.buf|
    requires Labels(d) <= MAX_JUMPS || (Labels(d) == MAX_JUMPS + 1 && BestCut(o, d, skip).writelen > 0)
    ensures Clean(o, q, d, skip)
  {
    hide BestCut, WriteDomain, Decodes, NameEnd, Table, Separated, JumpUses, Aligned;
    var w, c := WriteDomain(o, d, skip).out, BestCut(o, d, skip);
    WriteWithinBounds(o, d, skip);
    if c.jump != 0 {
      var entry, t, jumps := CutEntry(o, q, d, skip, Tidy(m));
      TidyAligned(o, q, d, c, entry, t, jumps, m);
      JumpWrite(o, q, d, c, w, w.buf, entry, t, jumps);
      JumpsBounded(w.buf, o.woff, d, 0, jumps + 1);
      FirstLength(d);
      assert CleanJump(o, q, d, c, entry, t, jumps);
    }
  }

  lemma FirstLength(d: seq<byte>)
    requires WfName(d)
    ensures d[0] <= LABEL_MAXLEN && (Labels(d) > 0 ==> d[0] > 0)
  {}

  lemma TidyAligned(o: Out, q: seq<byte>, d: seq<byte>, c: Cut, entry: nat, t: seq<byte>, jumps: nat, m: nat)
    requires ValidOut(o) && Writable(d) && JumpUses(o, q, d, c, entry, t, jumps)
    requires Allowed(d, Tidy(m)) && Allowed(t, Tidy(m))
    ensures Aligned(q, entry, t, d, c.writelen)
  {
    hide Decodes, Boundary, NameEnd, Aligned, Chosen, Reuses, Separated;
    SeparatedAligned(q, entry, t, jumps, d, c.writelen, m);
  }
}
