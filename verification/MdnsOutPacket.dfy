// struct mdns_outpacket and the writers of ports/mdns/mdns.c as they run, in
// place on the packet buffer; each is proved to compute the state function of
// the same name.
module MdnsOutPacket {
  import opened Bytes
  import opened MdnsName
  import opened MdnsWriter
  import opened MdnsPacket
  import opened MdnsPacketRoundTrip

  lemma MatchStep(t: seq<byte>, tlen: byte, d: seq<byte>, k: nat)
    requires |t| <= DOMAIN_MAXLEN && |d| < DOMAIN_MAXLEN && WfFrom(d, k)
    ensures MatchFrom(t, tlen, d, k) ==
            match LookAt(t, tlen, d, k)
            case Stop => None
            case Take => Some(k)
            case Skip => MatchFrom(t, tlen, d, U8(k + 1 + d[k]))
  {
    hide LookAt;
  }

  lemma MatchEnd(t: seq<byte>, tlen: byte, d: seq<byte>)
    requires |t| <= DOMAIN_MAXLEN && |d| < DOMAIN_MAXLEN
    ensures MatchFrom(t, tlen, d, |d|) == None
  {}

  // The loop of mdns_compress_domain over the labels of d.
  method FindCut(t: seq<byte>, tlen: byte, d: seq<byte>) returns (found: Option<nat>)
    requires |t| <= DOMAIN_MAXLEN && Writable(d)
    ensures found == MatchFrom(t, tlen, d, 0)
  {
    hide MatchFrom;
    ghost var whole := MatchFrom(t, tlen, d, 0);
    found := None;
    var writelen := 0;
    while writelen < |d|
      invariant writelen == |d| || WfFrom(d, writelen)
      invariant whole == MatchFrom(t, tlen, d, writelen)
    {
      MatchStep(t, tlen, d, writelen);
      hide LookAt;
      var look := LookAt(t, tlen, d, writelen);
      if look != Skip {
        return if look == Take then Some(writelen) else None;
      }
      writelen := U8(writelen + 1 + d[writelen]);
    }
    MatchEnd(t, tlen, d);
  }

  // mdns_compress_domain
  method CompressDomain(p: array<byte>, offset: u16, d: seq<byte>) returns (c: Cut)
    requires p.Length < 0x1_0000 && Writable(d)
    ensures c == Compress(p[..], offset, d)
  {
    hide ReadName, MatchFrom;
    var target := new Domain();
    var end := ReadNameInto(p, offset, target);
    if end == READNAME_ERROR {
      return Cut(|d|, offset);
    }
    ReadNameWellFormed(p[..], offset);
    var found := FindCut(target.name[..target.length], U8(end - offset), d);
    match found
    case None => return Cut(|d|, offset);
    case Some(k) => return Cut(k, U16(offset + U8(target.length - (|d| - k))));
  }

  class OutPacket {
    var pbuf: array<byte>
    var writeOffset: nat
    const domainOffsets: array<nat>

    ghost predicate Valid()
      reads this, pbuf, domainOffsets
    {
      ValidOut(State()) && (pbuf as object) != (domainOffsets as object)
    }

    ghost function State(): Out
      reads this, pbuf, domainOffsets
    {
      Out(pbuf[..], writeOffset, domainOffsets[..])
    }

    // A zeroed outpacket once its pbuf has been allocated; the buffer's bytes are arbitrary.
    constructor ()
      ensures Valid() && fresh(pbuf) && fresh(domainOffsets) && State() == Fresh(pbuf[..])
      ensures writeOffset == 12 && pbuf.Length == 500 && domainOffsets.Length == 10
    {
      pbuf := new byte[OUTPACKET_SIZE];
      writeOffset := DNS_HDR;
      domainOffsets := new nat[NUM_DOMAIN_OFFSETS](_ => 0);
    }

    // pbuf_take_at at the write offset, and the step past what was written.
    method Take(data: seq<byte>) returns (ok: bool)
      requires Valid()
      modifies this`writeOffset, pbuf
      ensures Valid() && Written(ok, State()) == TakeAt(old(State()), data)
      ensures ok ==> writeOffset <= pbuf.Length
    {
      if writeOffset + |data| > pbuf.Length {
        return false;
      }
      ghost var was := State();
      forall i | 0 <= i < |data| {
        pbuf[writeOffset + i] := data[i];
      }
      assert pbuf[..] == Put(was.buf, writeOffset, data);
      writeOffset := writeOffset + |data|;
      return true;
    }

    // The search of mdns_write_domain for the shortest cut.
    method Search(d: seq<byte>, skip: bool) returns (c: Cut)
      requires Valid() && Writable(d)
      ensures c == BestCut(State(), d, skip)
    {
      hide Compress;
      c := Cut(|d|, 0);
      if !skip {
        var i := 0;
        ghost var o := State();
        while i < domainOffsets.Length
          invariant i <= domainOffsets.Length && c.writelen <= |d|
          invariant BestFrom(o.buf, o.offsets, i, d, c) == BestCut(o, d, skip)
        {
          var offset := domainOffsets[i];
          if offset != 0 {
            var candidate := CompressDomain(pbuf, offset, d);
            if candidate.writelen < c.writelen {
              c := candidate;
            }
          }
          i := i + 1;
        }
      }
    }

    method StoreOffset(v: nat)
      requires Valid() && v < OUTPACKET_SIZE
      modifies domainOffsets
      ensures Valid() && State() == old(State()).(offsets := Remember(old(State()).offsets, 0, v))
    {
      var i := 0;
      while i < domainOffsets.Length && domainOffsets[i] != 0
        invariant i <= domainOffsets.Length
        invariant domainOffsets[..] == old(domainOffsets[..])
        invariant Remember(domainOffsets[..], 0, v) == Remember(domainOffsets[..], i, v)
      {
        i := i + 1;
      }
      if i < domainOffsets.Length {
        ghost var was := domainOffsets[..];
        domainOffsets[i] := v;
        assert domainOffsets[..] == was[i := v];
      }
    }

    // mdns_write_domain
    method WriteDomain(domain: Domain) returns (ok: bool)
      requires Valid() && domain.Valid() && Writable(domain.Contents())
      modifies this`writeOffset, pbuf, domainOffsets
      ensures Valid()
      ensures Written(ok, State())
              == MdnsWriter.WriteDomain(old(State()), old(domain.Contents()), domain.skipCompression)
    {
      hide BestCut, Remember, Put;
      ghost var d := domain.Contents();
      var c := Search(domain.name[..domain.length], domain.skipCompression);
      var literal := domain.name[..c.writelen];
      assert literal == d[..c.writelen];
      var start := writeOffset;
      ok := Take(literal);
      if !ok {
        return;
      }
      if |literal| > 0 {
        StoreOffset(start);
      }
      if c.jump != 0 {
        ok := Take(JumpBytes(c.jump));
      }
    }

    // mdns_add_question
    method AddQuestion(domain: Domain, rtype: u16, klass: u16, unicast: bool) returns (ok: bool)
      requires Valid() && domain.Valid() && Writable(domain.Contents())
      modifies this`writeOffset, pbuf, domainOffsets
      ensures Valid()
      ensures var rr := Rr(old(domain.Contents()), rtype, klass, unicast);
              Written(ok, State()) == MdnsPacket.AddQuestion(old(State()), Question(rr, domain.skipCompression))
    {
      hide MdnsWriter.WriteDomain, TakeAt, Be16;
      ghost var rr := Rr(domain.Contents(), rtype, klass, unicast);
      var questionLength := U16(domain.length + 4);
      if writeOffset + questionLength > pbuf.Length {
        return false;
      }
      ok := WriteDomain(domain);
      if !ok {
        return;
      }
      ok := Take(Be16(rtype));
      if !ok {
        return;
      }
      var field: u16 := if unicast && klass < 0x8000 then klass + 0x8000 else klass;
      ok := Take(Be16(field));
    }

    // The second half of mdns_add_answer: static data, then a name.
    method AddPayload(data: Option<seq<byte>>, target: Domain?, ghost a: Answer) returns (ok: bool)
      requires Valid() && WritableAnswer(a) && a.data == data
      requires target == null ==> a.target == None
      requires target != null ==> target.Valid() && a.target == Some(Name(target.Contents(), target.skipCompression))
      modifies this`writeOffset, pbuf, domainOffsets
      ensures Valid() && Written(ok, State()) == MdnsPacket.AddPayload(old(State()), a)
    {
      hide MdnsWriter.WriteDomain, TakeAt;
      ok := true;
      if data.Some? {
        ok := Take(data.value[..U16(|data.value|)]);
      }
      if ok && target != null {
        ok := WriteDomain(target);
      }
    }

    method PatchLength(hole: nat)
      requires Valid() && hole + 2 <= pbuf.Length
      modifies pbuf
      ensures Valid()
      ensures State() == old(State()).(buf := Put(old(pbuf[..]), hole, Be16(U16(writeOffset - (hole + 2)))))
    {
      var field := Be16(U16(writeOffset - (hole + 2)));
      ghost var was := pbuf[..];
      pbuf[hole] := field[0];
      pbuf[hole + 1] := field[1];
      assert pbuf[..] == Put(was, hole, field);
    }

    method WorstCase(domain: Domain, data: Option<seq<byte>>, target: Domain?, ghost a: Answer) returns (n: u16)
      requires domain.Valid() && WritableAnswer(a) && a.rr.name == domain.Contents() && a.data == data
      requires target == null ==> a.target == None
      requires target != null ==> target.Valid() && a.target.Some? && a.target.value.bytes == target.Contents()
      ensures n == AnswerLength(a)
    {
      n := U16(domain.length + 10);
      if data.Some? {
        n := U16(n + U16(|data.value|));
      }
      if target != null {
        n := U16(n + target.length);
      }
    }

    // mdns_add_answer; a is its arguments as one value.
    method AddAnswer(domain: Domain, rtype: u16, klass: u16, cacheFlush: bool, ttl: u32,
                     data: Option<seq<byte>>, target: Domain?, ghost a: Answer)
      returns (ok: bool)
      requires Valid() && domain.Valid() && WritableAnswer(a)
      requires a == Answer(Rr(domain.Contents(), rtype, klass, cacheFlush), domain.skipCompression, ttl, data, a.target)
      requires target == null ==> a.target == None
      requires target != null ==> target.Valid() && a.target == Some(Name(target.Contents(), target.skipCompression))
      modifies this`writeOffset, pbuf, domainOffsets
      ensures Valid() && Written(ok, State()) == MdnsPacket.AddAnswer(old(State()), a)
    {
      hide MdnsPacket.AddQuestion, MdnsPacket.AddPayload, TakeAt, Be32, Be16, Put, AnswerLength;
      var answerLength := WorstCase(domain, data, target, a);
      if writeOffset + answerLength > pbuf.Length {
        return false;
      }
      var _ := AddQuestion(domain, rtype, klass, cacheFlush);
      ok := Take(Be32(ttl));
      if !ok {
        return;
      }
      var hole := writeOffset;
      writeOffset := writeOffset + 2;
      ok := AddPayload(data, target, a);
      if !ok {
        return;
      }
      if hole + 2 > pbuf.Length {
        return false;
      }
      PatchLength(hole);
    }
  }
}
