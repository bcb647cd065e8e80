// Two short runs of mdns_write_domain whose last name does not read back: why
// the round trip needs names of at most five labels that cannot be mistaken
// for one another's middle.
module MdnsLimits {
  import opened Bytes
  import opened MdnsName
  import opened MdnsDecode
  import opened MdnsWriter
  import opened MdnsRoundTrip
  import opened MdnsPacketReader
  import opened MdnsPacketRoundTrip

  // A used slot of the table: where its name stands, and what it decodes to.
  datatype Known = Known(offset: nat, name: seq<byte>, jumps: nat, end: nat)

  ghost predicate IsKnown(q: seq<byte>, e: Known) {
    && 0 < e.offset < OUTPACKET_SIZE && Writable(e.name) && e.jumps <= MAX_JUMPS
    && Decodes(q, e.offset, e.name, 0, e.jumps) && q[e.offset] <= LABEL_MAXLEN
    && e.end == NameEnd(q, e.offset) <= |q|
  }

  // A packet whose table is exactly this list.
  ghost predicate Knows(o: Out, known: seq<Known>) {
    && ValidOut(o) && o.woff <= |o.buf| && |known| <= NUM_DOMAIN_OFFSETS
    && (forall i :: |known| <= i < NUM_DOMAIN_OFFSETS ==> o.offsets[i] == 0)
    && (forall i :: 0 <= i < |known| ==> o.offsets[i] == known[i].offset && IsKnown(Filled(o), known[i]))
  }

  lemma KnownEntryReads(o: Out, e: Known)
    requires ValidOut(o) && o.woff <= |o.buf| && IsKnown(Filled(o), e)
    ensures ReadName(o.buf, e.offset) == ReadResult(e.end, e.name)
  {
    hide Decodes, ReadName;
    assert Grows(Filled(o), o.buf);
    DecodesGrows(Filled(o), o.buf, e.offset, e.name, 0, e.jumps);
    ReaderFindsName(o.buf, e.offset, e.name, e.jumps);
  }

  // Entry number slot can supply the tail of d from k, and no entry a longer one.
  ghost predicate Supplies(known: seq<Known>, slot: nat, d: seq<byte>, k: nat) {
    && slot < |known| && Writable(d) && Boundary(d, 0, k)
    && Reuses(known[slot].name, U8(known[slot].end - known[slot].offset), d, k)
    && (k == 0 || |known[slot].name| == |d| - k)
    && forall i :: 0 <= i < |known| && i != slot ==> |known[i].name| < |d| - k
  }

  lemma CutDetermined(o: Out, known: seq<Known>, slot: nat, d: seq<byte>, k: nat)
    requires Knows(o, known) && Supplies(known, slot, d, k)
    ensures BestCut(o, d, false) == Cut(k, known[slot].offset + LandingPos(known[slot].name, d, k))
  {
    hide BestCut, ReadName, MatchFrom, SameTail, Decodes, Boundary, NameEnd;
    var c := BestCut(o, d, false);
    var e := known[slot];
    KnownEntryReads(o, e);
    MatchIsLongest(e.name, U8(e.end - e.offset), d, 0);
    assert MatchFrom(e.name, U8(e.end - e.offset), d, 0).Some?;
    assert MatchFrom(e.name, U8(e.end - e.offset), d, 0).value <= k;
    var used := BestCutMeaning(o, d, false);
    assert c.writelen <= Compress(o.buf, o.offsets[slot], d).writelen <= k;
    hide Compress, NoneShorter;
    KnownEntryReads(o, known[used]);
  }

  lemma {:induction false} RememberAt(offsets: seq<nat>, i: nat, k: nat, v: nat)
    requires i <= k < |offsets| && offsets[k] == 0 && forall j :: i <= j < k ==> offsets[j] != 0
    ensures Remember(offsets, i, v) == offsets[k := v]
    decreases k - i
  {
    if i < k {
      RememberAt(offsets, i + 1, k, v);
    }
  }

  lemma OffsetsAfter(o: Out, d: seq<byte>, free: nat)
    requires ValidOut(o) && Writable(d) && o.woff + |d| <= |o.buf|
    requires free < NUM_DOMAIN_OFFSETS && o.offsets[free] == 0 && forall j :: 0 <= j < free ==> o.offsets[j] != 0
    requires BestCut(o, d, false).writelen > 0
    ensures WriteDomain(o, d, false).out.offsets == o.offsets[free := o.woff]
  {
    hide BestCut, JumpBytes, Put, Remember;
    WriteWithinBounds(o, d, false);
    RememberAt(o.offsets, 0, free, o.woff);
  }

  lemma KnownGrows(q: seq<byte>, p: seq<byte>, e: Known)
    requires IsKnown(q, e) && Grows(q, p)
    ensures IsKnown(p, e)
  {
    DecodesGrows(q, p, e.offset, e.name, 0, e.jumps);
  }

  // One more name, with a known cut, over a table with a free slot.
  lemma KnownWrite(o: Out, known: seq<Known>, d: seq<byte>, jumps: nat) returns (e: Known)
    requires Knows(o, known) && |known| < NUM_DOMAIN_OFFSETS && Writable(d) && o.woff + |d| <= |o.buf|
    requires jumps <= MAX_JUMPS
    requires var c := BestCut(o, d, false);
             && c.writelen > 0 && (c.jump == 0 ==> jumps == 0)
             && (c.jump != 0 ==> jumps > 0 && Boundary(d, 0, c.writelen) && DNS_HDR <= c.jump < o.woff
                                 && 0 < Filled(o)[c.jump] <= LABEL_MAXLEN
                                 && Decodes(Filled(o), c.jump, d, c.writelen, jumps - 1))
    ensures var w, c := WriteDomain(o, d, false), BestCut(o, d, false);
            && w.ok && Knows(w.out, known + [e])
            && w.out.woff == o.woff + c.writelen + (if c.jump == 0 then 0 else JUMP_SIZE)
            && e == Known(o.woff, d, jumps, w.out.woff)
  {
    hide BestCut, WriteDomain, Decodes, Boundary, NameEnd;
    var c, w := BestCut(o, d, false), WriteDomain(o, d, false);
    WriteWithinBounds(o, d, false);
    OffsetsAfter(o, d, |known|);
    e := Known(o.woff, d, jumps, w.out.woff);
    var q, p := Filled(o), Filled(w.out);
    assert Holds(p, q, o, w.out);
    CutDecodes(o, d, c, w.out, q, p, jumps - if c.jump == 0 then 0 else 1);
    forall i | 0 <= i < |known| ensures IsKnown(p, known[i]) {
      KnownGrows(q, p, known[i]);
    }
  }

  lemma FirstWrite(buf: seq<byte>, d: seq<byte>) returns (e: Known)
    requires |buf| == OUTPACKET_SIZE && Writable(d)
    ensures var w := WriteDomain(Fresh(buf), d, false);
            w.ok && e == Known(DNS_HDR, d, 0, DNS_HDR + |d|) && Knows(w.out, [e]) && w.out.woff == DNS_HDR + |d|
  {
    hide BestCut, WriteDomain, Decodes, Compress;
    var o := Fresh(buf);
    var used := BestCutMeaning(o, d, false);
    e := KnownWrite(o, [], d, 0);
    assert [] + [e] == [e];
  }

  // ------------------------------------------------------ six labels deep

  // a, b.a, c.b.a, ...
  function ChainName(k: nat): (n: seq<byte>)
    requires k <= 6
    ensures |n| == 2 * k + 1
  {
    if k == 0 then [0] else [1, 0x60 + k] + ChainName(k - 1)
  }

  lemma {:induction false} WfAppend(a: byte, n: seq<byte>, i: nat)
    requires WfFrom(n, i)
    ensures WfFrom([1, a] + n, 2 + i) && LabelsFrom([1, a] + n, 2 + i) == LabelsFrom(n, i)
    decreases |n| - i
  {
    if n[i] != 0 {
      WfAppend(a, n, i + 1 + n[i]);
    }
  }

  lemma {:induction false} ChainIsName(k: nat)
    requires k <= 6
    ensures Writable(ChainName(k)) && Labels(ChainName(k)) == k
    ensures k > 0 ==> Boundary(ChainName(k), 0, 2) && SameTail(ChainName(k), 2, ChainName(k - 1), 0)
  {
    if k > 0 {
      ChainIsName(k - 1);
      WfAppend(0x60 + k, ChainName(k - 1), 0);
    }
  }

  // The packet after writing the first k names of the chain.
  function ChainPacket(buf: seq<byte>, k: nat): (o: Out)
    requires |buf| == OUTPACKET_SIZE && k <= 6
    ensures ValidOut(o)
  {
    if k == 0 then Fresh(buf)
    else
      ChainIsName(k);
      WriteDomain(ChainPacket(buf, k - 1), ChainName(k), false).out
  }

  // Each name after the first is one label and a jump to the name before it.
  ghost predicate ChainTable(known: seq<Known>, woff: nat) {
    && 0 < |known| <= 6
    && (forall i :: 0 <= i < |known| ==>
          known[i].name == ChainName(i + 1) && known[i].jumps == i && known[i].end - known[i].offset >= 3)
    && known[|known| - 1].end == woff == DNS_HDR + 3 + 4 * (|known| - 1)
  }

  lemma ChainCut(o: Out, known: seq<Known>, k: nat, d: seq<byte>, cut: nat)
    requires 0 < k <= 6 && |known| == k && Knows(o, known) && ChainTable(known, o.woff)
    requires (cut == 0 && d == ChainName(k)) || (cut == 2 && k < 6 && d == ChainName(k + 1))
    ensures Writable(d) && BestCut(o, d, false) == Cut(cut, known[k - 1].offset)
    ensures var q := Filled(o);
            Boundary(d, 0, cut) && DNS_HDR <= known[k - 1].offset < o.woff && 0 < q[known[k - 1].offset] <= LABEL_MAXLEN
            && Decodes(q, known[k - 1].offset, d, cut, k - 1)
  {
    hide BestCut, Boundary, WfFrom, Decodes, NameEnd;
    var e := known[k - 1];
    ChainSupplies(o, known, k, d, cut);
    CutDetermined(o, known, k - 1, d, cut);
    assert e.name[0] != 0;
    EndWithin(Filled(o), e);
    hide ChainName;
    SameTailLater(e.name, 0, d, cut, 0);
    DecodesSameTail(Filled(o), e.offset, e.name, 0, d, cut, e.jumps);
  }

  lemma ChainSupplies(o: Out, known: seq<Known>, k: nat, d: seq<byte>, cut: nat)
    requires 0 < k <= 6 && |known| == k && Knows(o, known) && ChainTable(known, o.woff)
    requires (cut == 0 && d == ChainName(k)) || (cut == 2 && k < 6 && d == ChainName(k + 1))
    ensures Supplies(known, k - 1, d, cut) && SameTail(d, cut, known[k - 1].name, 0)
  {
    hide Boundary, WfFrom, Decodes, NameEnd;
    ChainIsName(k);
    if cut == 2 {
      ChainIsName(k + 1);
    }
    StartIsBoundary(d);
  }

  lemma StartIsBoundary(d: seq<byte>)
    requires WfName(d)
    ensures Boundary(d, 0, 0)
  {}

  lemma EndWithin(q: seq<byte>, e: Known)
    requires IsKnown(q, e) && e.name[0] != 0
    ensures DNS_HDR <= e.offset < e.end && 0 < q[e.offset]
  {
    NameEndBeyond(q, e.offset, e.name, e.jumps);
  }

  lemma {:induction false} ChainRun(buf: seq<byte>, k: nat) returns (known: seq<Known>)
    requires |buf| == OUTPACKET_SIZE && 0 < k <= 6
    ensures var o := ChainPacket(buf, k); |known| == k && Knows(o, known) && ChainTable(known, o.woff)
  {
    hide WriteDomain, BestCut, Decodes, Boundary, Knows;
    if k == 1 {
      ChainIsName(1);
      var e := FirstWrite(buf, ChainName(1));
      known := [e];
    } else {
      var before := ChainRun(buf, k - 1);
      var o := ChainPacket(buf, k - 1);
      ChainCut(o, before, k - 1, ChainName(k), 2);
      var e := KnownWrite(o, before, ChainName(k), k - 1);
      known := before + [e];
    }
  }

  // a, b.a, ..., f.e.d.c.b.a and then the last of them again: the seventh name is a bare
  // jump into a name that itself takes five, one more than the reader follows.
  lemma SixLabelsUnreadable(buf: seq<byte>)
    requires |buf| == OUTPACKET_SIZE
    ensures var o, d := ChainPacket(buf, 6), ChainName(6);
            && Writable(d) && Labels(d) == 6
            && var w := WriteDomain(o, d, false);
            && w.ok && ReadName(w.out.buf, o.woff).end == READNAME_ERROR
  {
    hide WriteDomain, BestCut, Decodes, Boundary, ReadName, NameEnd, ChainName;
    var known := ChainRun(buf, 6);
    var o, d := ChainPacket(buf, 6), ChainName(6);
    ChainIsName(6);
    ChainCut(o, known, 6, d, 0);
    WriteWithinBounds(o, d, false);
    var w := WriteDomain(o, d, false).out;
    assert Grows(Filled(o), Filled(o));
    CutDecodes(o, d, BestCut(o, d, false), w, Filled(o), w.buf, 5);
    ReaderFindsName(w.buf, o.woff, d, 6);
  }

  // ------------------------------------------------ a match inside a label

  const LOCAL: seq<byte> := [5, 0x6c, 0x6f, 0x63, 0x61, 0x6c, 0]

  // A label of three bytes, the last two of which look like the start of another.
  const HOST: seq<byte> := [3, 0x61, 7, 0x62] + LOCAL

  // One label of seven bytes; as bytes, the tail of HOST from its third byte on.
  const INNER: seq<byte> := [7, 0x62] + LOCAL

  lemma StraddleNames()
    ensures Writable(LOCAL) && Writable(HOST) && Writable(INNER)
    ensures Boundary(HOST, 0, 4) && !Boundary(INNER, 0, 2)
    ensures SameTail(HOST, 4, LOCAL, 0) && SameTail(INNER, 0, HOST, 2)
  {
    assert HOST[0] == 3 && HOST[4] == 5 && HOST[10] == 0 && |HOST| == 11;
    assert WfFrom(HOST, 10) && WfFrom(HOST, 4);
    assert LOCAL[0] == 5 && LOCAL[6] == 0;
    assert WfFrom(LOCAL, 6);
    assert INNER[0] == 7 && INNER[8] == 0 && |INNER| == 9;
    assert WfFrom(INNER, 8);
    assert Boundary(HOST, 4, 4);
    assert !Boundary(INNER, 8, 2);
    forall x | 4 <= x < |HOST| ensures HOST[x] == LOCAL[0 + (x - 4)] {}
    forall x | 0 <= x < |INNER| ensures INNER[x] == HOST[2 + (x - 0)] {}
  }

  // The packet after LOCAL and HOST.
  lemma StraddleSetup(buf: seq<byte>) returns (o: Out, e: Known, known: seq<Known>)
    requires |buf| == OUTPACKET_SIZE
    ensures Writable(LOCAL) && Writable(HOST)
    ensures var o1 := WriteDomain(Fresh(buf), LOCAL, false);
            o1.ok && WriteDomain(o1.out, HOST, false) == Written(true, o)
    ensures Knows(o, known) && |known| == 2 && known[1] == e
    ensures known[0].name == LOCAL && e.name == HOST && e.jumps == 1 && e.offset == 19 && e.end == o.woff == 25
  {
    hide WriteDomain, BestCut, Decodes, Boundary, NameEnd, Reuses;
    StraddleNames();
    var first := FirstWrite(buf, LOCAL);
    var o1 := WriteDomain(Fresh(buf), LOCAL, false).out;
    assert Reuses(LOCAL, 7, HOST, 4) by { LocalReused(); }
    CutDetermined(o1, [first], 0, HOST, 4);
    FirstLabel(o1, first);
    SameTailLater(LOCAL, 0, HOST, 4, 0);
    DecodesSameTail(Filled(o1), DNS_HDR, LOCAL, 0, HOST, 4, 0);
    e := KnownWrite(o1, [first], HOST, 1);
    o := WriteDomain(o1, HOST, false).out;
    known := [first] + [e];
  }

  lemma LocalReused()
    ensures Reuses(LOCAL, 7, HOST, 4)
  {
    StraddleNames();
  }

  lemma FirstLabel(o: Out, e: Known)
    requires Knows(o, [e]) && e.name == LOCAL && e.offset == DNS_HDR && e.jumps == 0
    ensures DNS_HDR < o.woff && 0 < Filled(o)[DNS_HDR] <= LABEL_MAXLEN
  {
    assert IsKnown(Filled(o), [e][0]);
  }

  // Writing INNER matches the middle of HOST's first label, so the jump written for it leads
  // the reader across HOST's own jump: the name read is not the name written.
  lemma InnerMatchMisread(buf: seq<byte>)
    requires |buf| == OUTPACKET_SIZE
    ensures Writable(LOCAL) && Writable(HOST) && Writable(INNER)
    ensures var o1 := WriteDomain(Fresh(buf), LOCAL, false);
            var o2 := WriteDomain(o1.out, HOST, false);
            var o3 := WriteDomain(o2.out, INNER, false);
            && o1.ok && o2.ok && o3.ok
            && var r := ReadName(o3.out.buf, o2.out.woff);
               !(r.end != READNAME_ERROR && r.name == INNER)
  {
    hide WriteDomain, BestCut, Decodes, Boundary, NameEnd, ReadName;
    StraddleNames();
    var o, e, known := StraddleSetup(buf);
    StartIsBoundary(INNER);
    assert Reuses(HOST, 6, INNER, 0);
    CutDetermined(o, known, 1, INNER, 0);
    WriteWithinBounds(o, INNER, false);
    HostLiteral(o, e);
    var w := WriteDomain(o, INNER, false).out;
    MisalignedMisread(o, INNER, BestCut(o, INNER, false), w, Filled(o), w.buf, 19, HOST, 1);
  }

  lemma HostLiteral(o: Out, e: Known)
    requires ValidOut(o) && o.woff <= |o.buf| && IsKnown(Filled(o), e) && e.name == HOST && e.end == e.offset + 6
    ensures LiteralLength(Filled(o), e.offset) == 4
  {
    LiteralPart(Filled(o), e.offset, HOST, 0, e.jumps);
  }
}
