// struct mdns_packet and the readers of ports/mdns/mdns.c as they run, moving
// the parse offset and the record counters.
module MdnsInPacket {
  import opened Bytes
  import opened MdnsName
  import opened MdnsPacket
  import opened MdnsPacketReader

  class InPacket {
    const pbuf: array<byte>
    var parseOffset: u16
    var questionsLeft: nat
    var answersLeft: nat

    ghost predicate Valid()
      reads this, pbuf
    {
      ValidPacket(State())
    }

    ghost function State(): Packet
      reads this, pbuf
    {
      Packet(pbuf[..], parseOffset, questionsLeft, answersLeft)
    }

    constructor (p: array<byte>, offset: u16, questions: nat, answers: nat)
      requires p.Length < 0x1_0000
      ensures Valid() && pbuf == p && State() == Packet(p[..], offset, questions, answers)
    {
      pbuf, parseOffset, questionsLeft, answersLeft := p, offset, questions, answers;
    }

    method Field16() returns (r: Option<u16>)
      requires Valid()
      modifies this`parseOffset
      ensures var read := ReadField16(pbuf[..], old(parseOffset));
              r == (if read.Done? then Some(read.value) else None) && parseOffset == read.next
    {
      if parseOffset + 2 > pbuf.Length {
        return None;
      }
      assert pbuf[parseOffset..parseOffset + 2] == pbuf[..][parseOffset..parseOffset + 2];
      r := Some(FromBe16(pbuf[parseOffset..parseOffset + 2]));
      parseOffset := parseOffset + 2;
    }

    method Field32() returns (r: Option<u32>)
      requires Valid()
      modifies this`parseOffset
      ensures var read := ReadField32(pbuf[..], old(parseOffset));
              r == (if read.Done? then Some(read.value) else None) && parseOffset == read.next
    {
      if parseOffset + 4 > pbuf.Length {
        return None;
      }
      assert pbuf[parseOffset..parseOffset + 4] == pbuf[..][parseOffset..parseOffset + 4];
      r := Some(FromBe32(pbuf[parseOffset..parseOffset + 4]));
      parseOffset := parseOffset + 4;
    }

    // mdns_read_rr_info
    method RrInfo() returns (r: Option<Rr>)
      requires Valid()
      modifies this`parseOffset
      ensures var read := ReadRr(pbuf[..], old(parseOffset));
              r == (if read.Done? then Some(read.value) else None) && parseOffset == read.next
    {
      hide ReadName, ReadField16;
      var domain := new Domain();
      parseOffset := ReadNameInto(pbuf, parseOffset, domain);
      if parseOffset == READNAME_ERROR {
        return None;
      }
      var rtype := Field16();
      if rtype.None? {
        return None;
      }
      var field := Field16();
      if field.None? {
        return None;
      }
      return Some(Rr(domain.name[..domain.length], rtype.value, field.value % 0x8000, field.value >= 0x8000));
    }

    // mdns_read_question; None is ERR_VAL.
    method ReadQuestion() returns (r: Option<Rr>)
      requires Valid()
      modifies this`parseOffset, this`questionsLeft
      ensures Valid() && (r, State()) == MdnsPacketReader.ReadQuestion(old(State()))
    {
      hide ReadRr;
      if pbuf.Length < parseOffset || questionsLeft == 0 {
        return None;
      }
      questionsLeft := questionsLeft - 1;
      r := RrInfo();
    }

    // The body of mdns_read_answer.
    method FoundAt() returns (r: Option<Found>)
      requires Valid()
      modifies this`parseOffset
      ensures var read := ReadFound(pbuf[..], old(parseOffset));
              r == (if read.Done? then Some(read.value) else None) && parseOffset == read.next
    {
      hide ReadRr, ReadField16, ReadField32;
      var rr := RrInfo();
      if rr.None? {
        return None;
      }
      var ttl := Field32();
      if ttl.None? {
        return None;
      }
      var length := Field16();
      if length.None? {
        return None;
      }
      r := Some(Found(rr.value, ttl.value, length.value, parseOffset));
      parseOffset := U16(parseOffset + length.value);
    }

    // mdns_read_answer
    method ReadAnswer() returns (r: Option<Found>)
      requires Valid()
      modifies this`parseOffset, this`answersLeft
      ensures Valid() && (r, State()) == MdnsPacketReader.ReadAnswer(old(State()))
    {
      hide ReadFound;
      if questionsLeft > 0 || pbuf.Length < parseOffset || answersLeft == 0 {
        return None;
      }
      answersLeft := answersLeft - 1;
      r := FoundAt();
    }
  }
}
