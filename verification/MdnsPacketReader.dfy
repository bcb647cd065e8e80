// mdns_read_question and mdns_read_answer of ports/mdns/mdns.c, and the bytes
// from which they read a given record.
module MdnsPacketReader {
  import opened Bytes
  import opened MdnsName
  import opened MdnsDecode
  import opened MdnsWriter
  import opened MdnsPacket

  // The part of struct mdns_packet the readers use.
  datatype Packet = Packet(pbuf: seq<byte>, offset: u16, questionsLeft: nat, answersLeft: nat)

  predicate ValidPacket(k: Packet) {
    |k.pbuf| < 0x1_0000
  }

  // The outcome of a read, and the parse offset it leaves.
  datatype Read<+T> = Done(value: T, next: u16) | Failed(next: u16)

  // A two-byte pbuf_copy_partial and lwip_ntohs.
  function ReadField16(p: seq<byte>, offset: u16): (r: Read<u16>)
    requires |p| < 0x1_0000
  {
    if offset + 2 > |p| then Failed(offset) else Done(FromBe16(p[offset..offset + 2]), offset + 2)
  }

  function ReadField32(p: seq<byte>, offset: u16): (r: Read<u32>)
    requires |p| < 0x1_0000
  {
    if offset + 4 > |p| then Failed(offset) else Done(FromBe32(p[offset..offset + 4]), offset + 4)
  }

  // mdns_read_rr_info, with the top bit of the class field split off as its callers do.
  function ReadRr(p: seq<byte>, offset: u16): (r: Read<Rr>)
    requires |p| < 0x1_0000
  {
    var named := ReadName(p, offset);
    if named.end == READNAME_ERROR then Failed(named.end)
    else
      match ReadField16(p, named.end)
      case Failed(next) => Failed(next)
      case Done(rtype, at) =>
        match ReadField16(p, at)
        case Failed(next) => Failed(next)
        case Done(field, next) => Done(Rr(named.name, rtype, field % 0x8000, field >= 0x8000), next)
  }

  // mdns_read_question; None is ERR_VAL.
  function ReadQuestion(k: Packet): (r: (Option<Rr>, Packet))
    requires ValidPacket(k)
    ensures ValidPacket(r.1)
  {
    if |k.pbuf| < k.offset || k.questionsLeft == 0 then (None, k)
    else
      match ReadRr(k.pbuf, k.offset)
      case Failed(next) => (None, k.(offset := next, questionsLeft := k.questionsLeft - 1))
      case Done(rr, next) => (Some(rr), k.(offset := next, questionsLeft := k.questionsLeft - 1))
  }

  // struct mdns_answer
  datatype Found = Found(rr: Rr, ttl: u32, rdLength: u16, rdOffset: u16)

  function ReadFound(p: seq<byte>, offset: u16): (r: Read<Found>)
    requires |p| < 0x1_0000
  {
    match ReadRr(p, offset)
    case Failed(next) => Failed(next)
    case Done(rr, at) =>
      match ReadField32(p, at)
      case Failed(next) => Failed(next)
      case Done(ttl, at) =>
        match ReadField16(p, at)
        case Failed(next) => Failed(next)
        case Done(length, next) => Done(Found(rr, ttl, length, next), U16(next + length))
  }

  // mdns_read_answer
  function ReadAnswer(k: Packet): (r: (Option<Found>, Packet))
    requires ValidPacket(k)
    ensures ValidPacket(r.1)
  {
    if k.questionsLeft > 0 || |k.pbuf| < k.offset || k.answersLeft == 0 then (None, k)
    else
      match ReadFound(k.pbuf, k.offset)
      case Failed(next) => (None, k.(offset := next, answersLeft := k.answersLeft - 1))
      case Done(found, next) => (Some(found), k.(offset := next, answersLeft := k.answersLeft - 1))
  }

  // The question loop of mdns_handle_question; None when a question does not parse.
  function ReadQuestions(k: Packet): (r: (Option<seq<Rr>>, Packet))
    requires ValidPacket(k)
    ensures ValidPacket(r.1)
    decreases k.questionsLeft
  {
    if k.questionsLeft == 0 then (Some([]), k)
    else
      var first := ReadQuestion(k);
      if first.0.None? || first.1.questionsLeft >= k.questionsLeft then (None, first.1)
      else
        var rest := ReadQuestions(first.1);
        if rest.0.None? then rest else (Some([first.0.value] + rest.0.value), rest.1)
  }

  // Its loop over the known answers.
  function ReadAnswers(k: Packet): (r: (Option<seq<Found>>, Packet))
    requires ValidPacket(k)
    ensures ValidPacket(r.1)
    decreases k.answersLeft
  {
    if k.answersLeft == 0 then (Some([]), k)
    else
      var first := ReadAnswer(k);
      if first.0.None? || first.1.answersLeft >= k.answersLeft then (None, first.1)
      else
        var rest := ReadAnswers(first.1);
        if rest.0.None? then rest else (Some([first.0.value] + rest.0.value), rest.1)
  }

  // ------------------------------------------------------ record images

  // The bytes of p from offset to next are a question with these contents.
  ghost predicate RrImage(p: seq<byte>, offset: nat, rr: Rr, next: nat) {
    exists jumps :: RrImageWith(p, offset, rr, next, jumps)
  }

  ghost predicate RrImageWith(p: seq<byte>, offset: nat, rr: Rr, next: nat, jumps: nat) {
    && Writable(rr.name) && jumps <= MAX_JUMPS && Decodes(p, offset, rr.name, 0, jumps)
    && next == NameEnd(p, offset) + 4
    && FieldAt(p, next - 4, Be16(rr.rtype)) && FieldAt(p, next - 2, Be16(ClassField(rr)))
  }

  // Likewise for an answer whose question part ends at head.
  ghost predicate AnswerImageWith(p: seq<byte>, offset: nat, a: Answer, head: nat, next: nat, jumps: nat) {
    var rdata := head + 6;
    var target := rdata + |Taken(a)|;
    && RrImage(p, offset, a.rr, head)
    && FieldAt(p, head, Be32(a.ttl)) && target <= next < rdata + 0x1_0000
    && FieldAt(p, head + 4, Be16(next - rdata)) && FieldAt(p, rdata, Taken(a))
    && if a.target.None? then next == target
       else && Writable(a.target.value.bytes) && jumps <= MAX_JUMPS
            && Decodes(p, target, a.target.value.bytes, 0, jumps) && next == NameEnd(p, target)
  }

  ghost predicate AnswerImage(p: seq<byte>, offset: nat, a: Answer, next: nat) {
    exists head, jumps :: AnswerImageWith(p, offset, a, head, next, jumps)
  }

  lemma FieldGrows(q: seq<byte>, p: seq<byte>, at: nat, data: seq<byte>)
    requires Grows(q, p) && DNS_HDR <= at && FieldAt(q, at, data)
    ensures FieldAt(p, at, data)
  {}

  lemma NameEndBeyond(q: seq<byte>, offset: nat, n: seq<byte>, jumps: nat)
    requires Decodes(q, offset, n, 0, jumps)
    ensures offset < NameEnd(q, offset) <= |q|
  {
    DecodesGrows(q, q, offset, n, 0, jumps);
    NameEndAfter(q, offset);
  }

  lemma {:induction false} NameEndAfter(q: seq<byte>, offset: nat)
    ensures offset <= NameEnd(q, offset)
    ensures offset < |q| && (q[offset] >= JUMP || q[offset] <= LABEL_MAXLEN) ==> offset < NameEnd(q, offset)
    decreases |q| - offset
  {
    if offset < |q| && 0 < q[offset] <= LABEL_MAXLEN {
      NameEndAfter(q, offset + 1 + q[offset]);
    }
  }

  lemma RrImageGrows(q: seq<byte>, p: seq<byte>, offset: nat, rr: Rr, next: nat)
    requires Grows(q, p) && RrImage(q, offset, rr, next)
    ensures RrImage(p, offset, rr, next) && DNS_HDR < next <= |q|
  {
    hide Decodes, FieldAt, NameEnd, Be16;
    var jumps :| RrImageWith(q, offset, rr, next, jumps);
    NameEndBeyond(q, offset, rr.name, jumps);
    DecodesGrows(q, p, offset, rr.name, 0, jumps);
    DecodesOffset(q, offset, rr.name, jumps);
    FieldGrows(q, p, next - 4, Be16(rr.rtype));
    FieldGrows(q, p, next - 2, Be16(ClassField(rr)));
    FieldFits(q, next - 2, Be16(ClassField(rr)));
    assert RrImageWith(p, offset, rr, next, jumps);
  }

  lemma FieldFits(q: seq<byte>, at: nat, data: seq<byte>)
    requires FieldAt(q, at, data)
    ensures at + |data| <= |q|
  {}

  lemma DecodesOffset(q: seq<byte>, offset: nat, n: seq<byte>, jumps: nat)
    requires Decodes(q, offset, n, 0, jumps)
    ensures DNS_HDR <= offset < |q|
  {}

  lemma AnswerImageGrows(q: seq<byte>, p: seq<byte>, offset: nat, a: Answer, next: nat)
    requires Grows(q, p) && AnswerImage(q, offset, a, next)
    ensures AnswerImage(p, offset, a, next)
  {
    hide Decodes, FieldAt, NameEnd, RrImage, Be16, Be32, Taken, Writable;
    var head: nat, jumps: nat :| AnswerImageWith(q, offset, a, head, next, jumps);
    RrImageGrows(q, p, offset, a.rr, head);
    FieldGrows(q, p, head, Be32(a.ttl));
    FieldGrows(q, p, head + 4, Be16(next - (head + 6)));
    FieldGrows(q, p, head + 6, Taken(a));
    if a.target.Some? {
      DecodesGrows(q, p, head + 6 + |Taken(a)|, a.target.value.bytes, 0, jumps);
    }
    assert AnswerImageWith(p, offset, a, head, next, jumps);
  }

  // ------------------------------------------------- reading an image back

  lemma FieldRead16(p: seq<byte>, at: u16, n: u16)
    requires |p| < 0x1_0000 && FieldAt(p, at, Be16(n))
    ensures ReadField16(p, at) == Done(n, at + 2)
  {
    assert p[at] == Be16(n)[0] && p[at + 1] == Be16(n)[1];
    assert p[at..at + 2] == Be16(n);
  }

  lemma FieldRead32(p: seq<byte>, at: u16, n: u32)
    requires |p| < 0x1_0000 && FieldAt(p, at, Be32(n))
    ensures ReadField32(p, at) == Done(n, at + 4)
  {
    assert p[at..at + 4] == Be32(n);
    Be32RoundTrip(n);
  }

  lemma RrImageReads(p: seq<byte>, offset: nat, rr: Rr, next: nat)
    requires |p| < 0xFFFF && RrImage(p, offset, rr, next) && rr.klass < 0x8000
    ensures offset < |p| && next <= |p| && ReadRr(p, offset) == Done(rr, next)
  {
    hide Decodes, FieldAt, NameEnd, Be16, ReadName, ReadField16;
    var jumps :| RrImageWith(p, offset, rr, next, jumps);
    DecodesOffset(p, offset, rr.name, jumps);
    NameEndBeyond(p, offset, rr.name, jumps);
    ReaderFindsName(p, offset, rr.name, jumps);
    FieldFits(p, next - 2, Be16(ClassField(rr)));
    FieldRead16(p, next - 4, rr.rtype);
    FieldRead16(p, next - 2, ClassField(rr));
  }

  // What a caller finds in an answer: the header, and in the packet the rdata.
  ghost predicate Shows(p: seq<byte>, found: Found, a: Answer)
    requires |p| < 0x1_0000
  {
    && found.rr == a.rr && found.ttl == a.ttl
    && found.rdOffset + found.rdLength <= |p|
    && |Given(a)| <= found.rdLength && FieldAt(p, found.rdOffset, Given(a))
    && if a.target.None? then found.rdLength == |Given(a)|
       else ReadName(p, found.rdOffset + |Given(a)|)
            == ReadResult(found.rdOffset + found.rdLength, a.target.value.bytes)
  }

  // An answer is read back with the data given exactly when that was not cut on writing.
  lemma AnswerImageReads(p: seq<byte>, offset: nat, a: Answer, next: nat)
    requires |p| < 0xFFFF && AnswerImage(p, offset, a, next) && a.rr.klass < 0x8000
    ensures offset < |p| && next <= |p|
    ensures var r := ReadFound(p, offset); 
            r.Done? && r.next == next && (Shows(p, r.value, a) <==> |Given(a)| < 0x1_0000)
  {
    hide Decodes, FieldAt, NameEnd, RrImage, Be16, Be32, Given, Taken, ReadRr, ReadName, ReadField16, ReadField32;
    CutMeaning(a);
    var head: nat, jumps: nat :| AnswerImageWith(p, offset, a, head, next, jumps);
    var rdata := head + 6;
    RrImageReads(p, offset, a.rr, head);
    FieldFits(p, rdata, Taken(a));
    FieldRead32(p, head, a.ttl);
    FieldRead16(p, head + 4, next - rdata);
    if a.target.Some? {
      ReaderFindsName(p, rdata + |Taken(a)|, a.target.value.bytes, jumps);
    }
  }
}
