// Name compression of ports/mdns/mdns.c: the outgoing packet, its table of
// earlier names, and what a written name reads back as.
module MdnsWriter {
  import opened Bytes
  import opened MdnsName
  import opened MdnsDecode

  const NUM_DOMAIN_OFFSETS := 10
  const JUMP_SIZE := 2
  const OUTPACKET_SIZE := 500

  // The part of struct mdns_outpacket that the writers use.  A zero offset is a free slot.
  datatype Out = Out(buf: seq<byte>, woff: nat, offsets: seq<nat>)

  predicate ValidOut(o: Out) {
    && |o.buf| == OUTPACKET_SIZE && DNS_HDR <= o.woff < 0x1_0000
    && |o.offsets| == NUM_DOMAIN_OFFSETS
    && forall i :: 0 <= i < NUM_DOMAIN_OFFSETS ==> o.offsets[i] < OUTPACKET_SIZE
  }

  // The u8 counters of mdns_compress_domain hold at most 255.
  predicate Writable(d: seq<byte>) {
    WfName(d) && |d| < DOMAIN_MAXLEN
  }

  // ------------------------------------------------ choosing the suffix

  // One turn of the loop of mdns_compress_domain: t is the earlier name, tlen the
  // bytes it occupies in the packet, and d is compared from position k on.
  datatype Look = Stop | Take | Skip

  function LookAt(t: seq<byte>, tlen: byte, d: seq<byte>, k: nat): Look
    requires |t| <= DOMAIN_MAXLEN && k < |d| < DOMAIN_MAXLEN
  {
    var left := U8(|d| - k);
    if JUMP_SIZE < left <= |t| then
      var pos := U8(|t| - left);
      if pos + JUMP_SIZE >= tlen then Stop
      else if d[k..] == t[pos..pos + left] then Take
      else Skip
    else Skip
  }

  function MatchFrom(t: seq<byte>, tlen: byte, d: seq<byte>, k: nat): (r: Option<nat>)
    requires |t| <= DOMAIN_MAXLEN && |d| < DOMAIN_MAXLEN
    requires k == |d| || WfFrom(d, k)
    ensures r.Some? ==> k <= r.value < |d|
    decreases |d| - k
  {
    if k == |d| then None
    else
      match LookAt(t, tlen, d, k)
      case Stop => None
      case Take => Some(k)
      case Skip => MatchFrom(t, tlen, d, U8(k + 1 + d[k]))
  }

  // How many bytes of d to write before jumping, and where to jump.
  datatype Cut = Cut(writelen: nat, jump: u16)

  // mdns_compress_domain
  function Compress(buf: seq<byte>, offset: u16, d: seq<byte>): (c: Cut)
    requires |buf| < 0x1_0000 && Writable(d)
    ensures c.writelen <= |d|
  {
    ReadNameWellFormed(buf, offset);
    var r := ReadName(buf, offset);
    if r.end == READNAME_ERROR then Cut(|d|, offset)
    else
      match MatchFrom(r.name, U8(r.end - offset), d, 0)
      case None => Cut(|d|, offset)
      case Some(k) => Cut(k, U16(offset + U8(|r.name| - (|d| - k))))
  }

  // The loop of mdns_write_domain over the table.
  function BestFrom(buf: seq<byte>, offsets: seq<nat>, i: nat, d: seq<byte>, best: Cut): (c: Cut)
    requires |buf| < 0x1_0000 && Writable(d) && i <= |offsets| && best.writelen <= |d|
    requires forall k :: 0 <= k < |offsets| ==> offsets[k] < 0x1_0000
    ensures c.writelen <= |d|
    decreases |offsets| - i
  {
    if i == |offsets| then best
    else if offsets[i] == 0 then BestFrom(buf, offsets, i + 1, d, best)
    else
      var c := Compress(buf, offsets[i], d);
      BestFrom(buf, offsets, i + 1, d, if c.writelen < best.writelen then c else best)
  }

  function BestCut(o: Out, d: seq<byte>, skip: bool): (c: Cut)
    requires ValidOut(o) && Writable(d)
    ensures c.writelen <= |d|
  {
    if skip then Cut(|d|, 0) else BestFrom(o.buf, o.offsets, 0, d, Cut(|d|, 0))
  }

  // The suffix of d from k stands at the end of t, in its literal part.
  ghost predicate Reuses(t: seq<byte>, tlen: int, d: seq<byte>, k: nat) {
    && k < |d| && JUMP_SIZE < |d| - k <= |t|
    && |t| - (|d| - k) + JUMP_SIZE < tlen
    && SameTail(d, k, t, |t| - (|d| - k))
  }

  lemma TailSlices(t: seq<byte>, d: seq<byte>, k: nat)
    requires k <= |d| && |d| - k <= |t|
    ensures var pos := |t| - (|d| - k);
            SameTail(d, k, t, pos) <==> d[k..] == t[pos..pos + (|d| - k)]
  {
    var pos := |t| - (|d| - k);
    if d[k..] == t[pos..pos + (|d| - k)] {
      forall x | k <= x < |d| ensures d[x] == t[pos + (x - k)] {
        assert d[k..][x - k] == t[pos..pos + (|d| - k)][x - k];
      }
    }
  }

  lemma LookMeaning(t: seq<byte>, tlen: byte, d: seq<byte>, k: nat)
    requires |t| <= DOMAIN_MAXLEN && k < |d| < DOMAIN_MAXLEN
    ensures LookAt(t, tlen, d, k) == Take <==> Reuses(t, tlen, d, k)
    ensures LookAt(t, tlen, d, k) == Stop ==> forall later :: k <= later ==> !Reuses(t, tlen, d, later)
  {
    if |d| - k <= |t| {
      TailSlices(t, d, k);
    }
  }

  // The cut found lies between labels, is a reusable suffix, and no longer one exists.
  lemma {:induction false} MatchIsLongest(t: seq<byte>, tlen: byte, d: seq<byte>, k: nat)
    requires |t| <= DOMAIN_MAXLEN && |d| < DOMAIN_MAXLEN && WfFrom(d, k)
    ensures var r := MatchFrom(t, tlen, d, k);
            && (r.Some? ==> Boundary(d, k, r.value) && Reuses(t, tlen, d, r.value))
            && forall x :: Boundary(d, k, x) && Reuses(t, tlen, d, x) ==> r.Some? && r.value <= x
    decreases |d| - k
  {
    hide LookAt;
    hide Reuses;
    LookMeaning(t, tlen, d, k);
    if LookAt(t, tlen, d, k) == Skip && d[k] != 0 {
      MatchIsLongest(t, tlen, d, k + 1 + d[k]);
    }
    forall x | Boundary(d, k, x) && Reuses(t, tlen, d, x)
      ensures MatchFrom(t, tlen, d, k).Some? && MatchFrom(t, tlen, d, k).value <= x
    {
      BoundaryForward(d, k, x);
    }
  }

  lemma BoundaryForward(d: seq<byte>, i: nat, x: nat)
    requires WfFrom(d, i) && Boundary(d, i, x)
    ensures i <= x
  {}

  // What a jump means for the name it replaces: the chosen table entry, and the
  // position in that entry's name where the jump lands.
  ghost predicate CutUses(buf: seq<byte>, entry: nat, d: seq<byte>, c: Cut)
    requires |buf| < 0x1_0000 && Writable(d)
  {
    && entry < 0x1_0000
    && var r := ReadName(buf, entry);
    && r.end != READNAME_ERROR
    && Boundary(d, 0, c.writelen)
    && Reuses(r.name, U8(r.end - entry), d, c.writelen)
    && c.jump == U16(entry + (|r.name| - (|d| - c.writelen)))
  }

  lemma CompressMeaning(buf: seq<byte>, entry: u16, d: seq<byte>)
    requires |buf| < 0x1_0000 && Writable(d)
    ensures var c := Compress(buf, entry, d); c.writelen < |d| ==> CutUses(buf, entry, d, c)
  {
    hide ReadName;
    hide MatchFrom;
    ReadNameWellFormed(buf, entry);
    var r := ReadName(buf, entry);
    if r.end != READNAME_ERROR {
      MatchIsLongest(r.name, U8(r.end - entry), d, 0);
    }
  }

  ghost predicate NoneShorter(buf: seq<byte>, offsets: seq<nat>, d: seq<byte>, writelen: nat)
    requires |buf| < 0x1_0000 && Writable(d)
    requires forall k :: 0 <= k < |offsets| ==> offsets[k] < 0x1_0000
  {
    forall k :: 0 <= k < |offsets| && offsets[k] != 0 ==> writelen <= Compress(buf, offsets[k], d).writelen
  }

  // The table search returns a cut of one of the entries, and the shortest of all.
  lemma {:induction false} BestIsShortest(buf: seq<byte>, offsets: seq<nat>, i: nat, d: seq<byte>, best: Cut)
    returns (entry: nat)
    requires |buf| < 0x1_0000 && Writable(d) && i <= |offsets| && best.writelen <= |d|
    requires forall k :: 0 <= k < |offsets| ==> offsets[k] < 0x1_0000
    ensures var c := BestFrom(buf, offsets, i, d, best);
            && c.writelen <= best.writelen
            && (forall k :: i <= k < |offsets| && offsets[k] != 0 ==>
                  c.writelen <= Compress(buf, offsets[k], d).writelen)
            && (c != best ==> i <= entry < |offsets| && offsets[entry] != 0 && c == Compress(buf, offsets[entry], d)
                              && c.writelen < best.writelen)
    decreases |offsets| - i
  {
    hide Compress;
    entry := i;
    if i < |offsets| {
      if offsets[i] == 0 {
        entry := BestIsShortest(buf, offsets, i + 1, d, best);
      } else {
        var c := Compress(buf, offsets[i], d);
        var better := if c.writelen < best.writelen then c else best;
        entry := BestIsShortest(buf, offsets, i + 1, d, better);
        if BestFrom(buf, offsets, i + 1, d, better) == better {
          entry := i;
        }
      }
    }
  }

  // ------------------------------------------------------ writing a name

  // pbuf_take_at, when the data fits.
  function Put(buf: seq<byte>, at: nat, data: seq<byte>): (r: seq<byte>)
    requires at + |data| <= |buf|
    ensures |r| == |buf|
    ensures forall i :: 0 <= i < |buf| ==> r[i] == if at <= i < at + |data| then data[i - at] else buf[i]
  {
    buf[..at] + data + buf[at + |data|..]
  }

  // Put v into the first free slot from i on, if there is one.
  function Remember(offsets: seq<nat>, i: nat, v: nat): (r: seq<nat>)
    requires i <= |offsets|
    ensures |r| == |offsets|
    ensures forall k :: 0 <= k < |offsets| ==> r[k] == offsets[k] || r[k] == v
    decreases |offsets| - i
  {
    if i == |offsets| then offsets
    else if offsets[i] == 0 then offsets[i := v]
    else Remember(offsets, i + 1, v)
  }

  // lwip_htons(DOMAIN_JUMP | offset)
  function JumpBytes(offset: u16): (s: seq<byte>)
    ensures |s| == JUMP_SIZE
  {
    Be16(0xC000 + offset % 0x4000)
  }

  // The packet after a write, and whether the write returned ERR_OK.
  datatype Written = Written(ok: bool, out: Out)

  function TakeAt(o: Out, data: seq<byte>): (w: Written)
    ensures ValidOut(o) ==> ValidOut(w.out)
  {
    if o.woff + |data| > |o.buf| then Written(false, o)
    else Written(true, o.(buf := Put(o.buf, o.woff, data), woff := o.woff + |data|))
  }

  // mdns_write_domain, first half: the uncompressed part, remembered for later names.
  function WriteLiteral(o: Out, part: seq<byte>): (w: Written)
    requires ValidOut(o)
    ensures ValidOut(w.out)
  {
    var w := TakeAt(o, part);
    if |part| == 0 || !w.ok then w else Written(true, w.out.(offsets := Remember(o.offsets, 0, o.woff)))
  }

  // mdns_write_domain
  function WriteDomain(o: Out, d: seq<byte>, skip: bool): (w: Written)
    requires ValidOut(o) && Writable(d)
    ensures ValidOut(w.out)
  {
    var c := BestCut(o, d, skip);
    var w := WriteLiteral(o, d[..c.writelen]);
    if !w.ok || c.jump == 0 then w else TakeAt(w.out, JumpBytes(c.jump))
  }

  // A cut either writes the whole name or saves at least a byte.
  lemma BestCutMeaning(o: Out, d: seq<byte>, skip: bool) returns (entry: nat)
    requires ValidOut(o) && Writable(d)
    ensures var c := BestCut(o, d, skip);
            && (c.writelen == |d| ==> c.jump == 0)
            && (!skip ==> NoneShorter(o.buf, o.offsets, d, c.writelen))
            && (c.writelen < |d| ==>
                  && entry < NUM_DOMAIN_OFFSETS && o.offsets[entry] != 0 && c == Compress(o.buf, o.offsets[entry], d)
                  && c.jump != 0 && c.jump < 0x4000
                  && c.writelen + JUMP_SIZE < |d| && CutUses(o.buf, o.offsets[entry], d, c))
  {
    hide Compress, CutUses;
    entry := 0;
    if !skip {
      entry := BestIsShortest(o.buf, o.offsets, 0, d, Cut(|d|, 0));
      var c := BestCut(o, d, skip);
      if c.writelen < |d| {
        JumpInRange(o.buf, o.offsets[entry], d);
      }
    }
  }

  lemma JumpInRange(buf: seq<byte>, entry: u16, d: seq<byte>)
    requires |buf| == OUTPACKET_SIZE && 0 < entry < OUTPACKET_SIZE && Writable(d)
    ensures var c := Compress(buf, entry, d);
            c.writelen < |d| ==>
              c.jump != 0 && c.jump < 0x4000 && c.writelen + JUMP_SIZE < |d| && CutUses(buf, entry, d, c)
  {
    hide Compress, ReadName;
    CompressMeaning(buf, entry, d);
    ReadNameWellFormed(buf, entry);
  }

  // What a write leaves behind, byte by byte: it never exceeds the uncompressed length,
  // saves at least one byte when it jumps, and touches nothing but the bytes it claims.
  ghost predicate WroteCut(o: Out, d: seq<byte>, c: Cut, o': Out)
    requires ValidOut(o) && Writable(d)
  {
    && ValidOut(o')
    && c.writelen <= |d| && (c.jump == 0 <==> c.writelen == |d|)
    && o'.woff == o.woff + c.writelen + (if c.jump == 0 then 0 else JUMP_SIZE) <= |o.buf|
    && (c.jump != 0 ==> o'.woff < o.woff + |d| && c.jump < 0x4000)
    && (forall i :: 0 <= i < o.woff || o'.woff <= i < |o.buf| ==> o'.buf[i] == o.buf[i])
    && (forall i :: o.woff <= i < o.woff + c.writelen ==> o'.buf[i] == d[i - o.woff])
    && (c.jump != 0 ==> o'.buf[o.woff + c.writelen] >= JUMP
                        && JumpTarget(o'.buf[o.woff + c.writelen], o'.buf[o.woff + c.writelen + 1]) == c.jump)
    && (forall i :: 0 <= i < NUM_DOMAIN_OFFSETS ==>
          o'.offsets[i] == o.offsets[i] || (o'.offsets[i] == o.woff && c.writelen > 0))
  }

  lemma LiteralWritten(o: Out, part: seq<byte>)
    requires ValidOut(o) && o.woff + |part| <= |o.buf|
    ensures var w := WriteLiteral(o, part);
            && w.ok && ValidOut(w.out) && w.out.woff == o.woff + |part|
            && (forall i :: 0 <= i < o.woff || w.out.woff <= i < |o.buf| ==> w.out.buf[i] == o.buf[i])
            && (forall i :: o.woff <= i < w.out.woff ==> w.out.buf[i] == part[i - o.woff])
            && (forall i :: 0 <= i < NUM_DOMAIN_OFFSETS ==>
                  w.out.offsets[i] == o.offsets[i] || (w.out.offsets[i] == o.woff && |part| > 0))
  {}

  lemma JumpWritten(o: Out, jump: u16)
    requires ValidOut(o) && o.woff + JUMP_SIZE <= |o.buf| && jump < 0x4000
    ensures var w := TakeAt(o, JumpBytes(jump));
            && w.ok && ValidOut(w.out) && w.out.woff == o.woff + JUMP_SIZE && w.out.offsets == o.offsets
            && (forall i :: 0 <= i < o.woff || w.out.woff <= i < |o.buf| ==> w.out.buf[i] == o.buf[i])
            && w.out.buf[o.woff] >= JUMP && JumpTarget(w.out.buf[o.woff], w.out.buf[o.woff + 1]) == jump
  {
    assert JumpBytes(jump)[0] == 0xC0 + jump / 0x100;
    assert JumpBytes(jump)[1] == jump % 0x100;
  }

  lemma WriteWithinBounds(o: Out, d: seq<byte>, skip: bool)
    requires ValidOut(o) && Writable(d) && o.woff + |d| <= |o.buf|
    ensures var w := WriteDomain(o, d, skip); w.ok && WroteCut(o, d, BestCut(o, d, skip), w.out)
  {
    hide BestCut, CutUses, NoneShorter, WriteLiteral, TakeAt, JumpBytes, Compress, WfFrom, JumpTarget;
    var entry := BestCutMeaning(o, d, skip);
    var c := BestCut(o, d, skip);
    LiteralWritten(o, d[..c.writelen]);
    if c.jump != 0 {
      JumpWritten(WriteLiteral(o, d[..c.writelen]).out, c.jump);
    }
  }
}
