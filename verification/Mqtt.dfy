// MQTT SUBSCRIBE packets as packages/mongoose-v6.7/mongoose.c writes and reads
// them (sections 2.2.3 and 3.8 of MQTT 3.1.1).
module Mqtt {
  import opened Bytes
  import opened Mbufs

  datatype Topic = Topic(name: seq<byte>, qos: byte)

  const CMD_SUBSCRIBE := 8

  // ------------------------------------------------------------ on the wire

  // The variable length of section 2.2.3
  function VarLen(n: nat): (s: seq<byte>)
    ensures |s| > 0
  {
    if n < 0x80 then [n] else [n % 0x80 + 0x80] + VarLen(n / 0x80)
  }

  // The length in front of a name is kept in 16 bits.
  function TopicBytes(t: Topic): seq<byte> {
    Be16(U16(|t.name|)) + t.name + [t.qos]
  }

  function TopicsBytes(topics: seq<Topic>): seq<byte> {
    if topics == [] then [] else TopicsBytes(topics[..|topics| - 1]) + TopicBytes(topics[|topics| - 1])
  }

  function Header(cmd: nat, flags: nat): byte
    requires cmd < 16 && flags < 16
  {
    cmd * 16 + flags
  }

  function Subscribe(topics: seq<Topic>, id: u16): seq<byte> {
    var body := Be16(id) + TopicsBytes(topics);
    [Header(CMD_SUBSCRIBE, 2)] + VarLen(|body|) + body
  }

  // The remaining lengths that section 2.2.3 allows
  const LENGTH_LIMIT := 0x1000_0000

  // 1 + sizeof(size_t) on the 32-bit target
  const HEADER_SIZE := 5

  // The header has room for exactly these lengths.
  lemma VarLenFits(n: nat)
    ensures 1 + |VarLen(n)| <= 5 <==> n < 0x1000_0000
  {
    assert n < 0x80 || VarLen(n) == [n % 0x80 + 0x80] + VarLen(n / 0x80);
    Deeper(n / 0x80);
  }

  lemma Deeper(n: nat)
    ensures |VarLen(n)| <= 3 <==> n < 0x20_0000
  {
    assert n < 0x80 || |VarLen(n)| == 1 + |VarLen(n / 0x80)|;
    var m := n / 0x80;
    assert m < 0x80 || |VarLen(m)| == 1 + |VarLen(m / 0x80)|;
    assert |VarLen(m / 0x80)| <= 1 <==> m / 0x80 < 0x80;
  }

  // mg_mqtt_prepend_header: the header goes in front of the last len bytes.
  method PrependHeader(io: Mbuf, cmd: nat, flags: nat, len: nat)
    requires io.Valid() && len <= io.len && cmd < 16 && flags < 16 && len < LENGTH_LIMIT
    modifies io, io.buf
    ensures io.Valid()
    ensures var was := old(io.Contents()); var off := |was| - len;
            io.Contents() == was[..off] + ([Header(cmd, flags)] + VarLen(len)) + was[off..]
  {
    var buf := new byte[HEADER_SIZE];
    var size := FixedHeader(buf, cmd, flags, len);
    io.Insert(io.len - len, buf[..size]);
  }

  // Its loop: the variable length encoding, within the buffer
  method FixedHeader(buf: array<byte>, cmd: nat, flags: nat, len: nat) returns (vlen: nat)
    requires buf.Length == HEADER_SIZE && cmd < 16 && flags < 16 && len < LENGTH_LIMIT
    modifies buf
    ensures vlen <= HEADER_SIZE && buf[..vlen] == [Header(cmd, flags)] + VarLen(len)
  {
    hide VarLen;
    VarLenFits(len);
    buf[0] := Header(cmd, flags);
    vlen := 1;
    var n := len;
    ghost var left := VarLen(n);
    var more := true;
    while more
      invariant left == if more then VarLen(n) else []
      invariant 0 < vlen && vlen + |left| <= HEADER_SIZE
      invariant buf[..vlen] + left == [Header(cmd, flags)] + VarLen(len)
      decreases more, n
    {
      VarLenStep(n);
      var digit: byte := n % 0x80;
      n := n / 0x80;
      if n > 0 {
        digit := digit + 0x80;
      }
      more := n > 0;
      left := if more then VarLen(n) else [];
      ghost var done := buf[..vlen];
      buf[vlen] := digit;
      vlen := vlen + 1;
      assert buf[..vlen] == done + [digit];
      assert done + ([digit] + left) == done + [digit] + left;
    }
    assert buf[..vlen] + [] == buf[..vlen];
  }

  lemma VarLenStep(n: nat)
    ensures VarLen(n) == [n % 0x80 + if n / 0x80 > 0 then 0x80 else 0] + if n / 0x80 > 0 then VarLen(n / 0x80) else []
  {
    assert n < 0x80 ==> [n] + [] == [n];
  }

  // mg_mqtt_subscribe appends a whole packet to what is to be sent.
  method Send(io: Mbuf, topics: seq<Topic>, id: u16)
    requires io.Valid() && 2 + |TopicsBytes(topics)| < LENGTH_LIMIT
    modifies io, io.buf
    ensures io.Valid() && io.Contents() == old(io.Contents()) + Subscribe(topics, id)
  {
    hide VarLen, TopicBytes;
    ghost var was := io.Contents();
    var oldLen := io.len;
    io.Append(Be16(id));
    for i := 0 to |topics|
      invariant io.Valid() && (io.buf == old(io.buf) || fresh(io.buf))
      invariant io.Contents() == was + (Be16(id) + TopicsBytes(topics[..i]))
    {
      ghost var before := io.Contents();
      io.Append(Be16(U16(|topics[i].name|)));
      io.Append(topics[i].name);
      io.Append([topics[i].qos]);
      TopicAdded(topics, i);
      Regroup(before, Be16(U16(|topics[i].name|)), topics[i].name, [topics[i].qos]);
      Regroup(was, Be16(id), TopicsBytes(topics[..i]), TopicBytes(topics[i]));
    }
    assert topics[..|topics|] == topics;
    ghost var body := Be16(id) + TopicsBytes(topics);
    assert (was + body)[..oldLen] == was && (was + body)[oldLen..] == body;
    PrependHeader(io, CMD_SUBSCRIBE, 2, io.len - oldLen);
    Regroup(was, [Header(CMD_SUBSCRIBE, 2)], VarLen(|body|), body);
  }

  lemma TopicAdded(topics: seq<Topic>, i: nat)
    requires i < |topics|
    ensures TopicsBytes(topics[..i + 1]) == TopicsBytes(topics[..i]) + TopicBytes(topics[i])
    ensures TopicBytes(topics[i]) == Be16(U16(|topics[i].name|)) + topics[i].name + [topics[i].qos]
  {
    assert topics[..i + 1][..i] == topics[..i];
  }

  lemma Regroup(a: seq<byte>, b: seq<byte>, c: seq<byte>, d: seq<byte>)
    ensures a + b + c + d == a + (b + c + d) && a + (b + c) + d == a + (b + c + d)
    ensures a + (b + c) + d == a + (b + (c + d))
  {}

  // --------------------------------------------------------------- reading

  function Times(a: nat, b: nat): nat { a * b }

  datatype Length = Length(value: nat, next: nat) | Unended

  // The value of a variable length, its first digit counting in units.
  function ReadLength(s: seq<byte>, at: nat, unit: nat): (l: Length)
    ensures l.Length? ==> at < l.next <= |s|
    decreases |s| - at
  {
    if at >= |s| then Unended
    else if s[at] < 0x80 then Length(Times(s[at], unit), at + 1)
    else
      match ReadLength(s, at + 1, Times(unit, 0x80))
      case Unended => Unended
      case Length(v, next) => Length(Times(s[at] % 0x80, unit) + v, next)
  }

  // A SUBSCRIBE packet lies at the start of the buffer, with its message id.
  predicate Complete(s: seq<byte>) {
    && |s| >= 2 && s[0] / 16 == CMD_SUBSCRIBE
    && var l := ReadLength(s, 1, 1); l.Length? && l.next + l.value <= |s| && l.value >= 2
  }

  // What parse_mqtt fills in, and its result: the length of the packet.
  datatype Message = Message(size: nat, cmd: nat, qos: nat, id: u16, payload: seq<byte>)

  function Parse(s: seq<byte>): Message
    requires Complete(s)
  {
    var l := ReadLength(s, 1, 1);
    var p, end := l.next, l.next + l.value;
    Message(end, s[0] / 16, s[0] / 2 % 4, s[p] as int * 256 + s[p + 1], s[p + 2..end])
  }

  // Its loop over the variable length
  method DecodeLength(s: seq<byte>) returns (len: nat, p: nat)
    requires |s| >= 2 && ReadLength(s, 1, 1).Length?
    ensures ReadLength(s, 1, 1) == Length(len, p)
  {
    hide Times;
    len, p := 0, 1;
    var unit: nat := 1;
    ghost var left := ReadLength(s, 1, 1);
    var more := true;
    while more && p <= |s|
      invariant 1 <= p && left.Length? && ReadLength(s, 1, 1) == Length(len + left.value, left.next)
      invariant if more then left == ReadLength(s, p, unit) else left == Length(0, p)
      decreases |s| - p, more
    {
      len := len + Times(s[p] % 0x80, unit);
      more := s[p] >= 0x80;
      p := p + 1;
      unit := Times(unit, 0x80);
      left := if more then ReadLength(s, p, unit) else Length(0, p);
    }
  }

  // parse_mqtt, for a complete SUBSCRIBE packet
  method ParseSubscribe(s: seq<byte>) returns (m: Message)
    requires Complete(s)
    ensures m == Parse(s)
  {
    hide ReadLength;
    var header := s[0];
    var cmd := header / 16;
    var len, p := DecodeLength(s);
    var end := p + len;
    var id: u16 := s[p] as int * 256 + s[p + 1];
    p := p + 2;
    return Message(end, cmd, header / 2 % 4, id, s[p..end]);
  }

  // What mg_mqtt_next_subscribe_topic finds at a position.
  datatype Next = Next(topic: Topic, pos: nat) | End | Cut

  function NextTopic(payload: seq<byte>, pos: nat): (r: Next)
    ensures r.Next? ==> pos < r.pos <= |payload| && |r.topic.name| <= 0xFFFF
  {
    if pos >= |payload| then End
    else if pos + 2 > |payload| then Cut
    else
      var len := payload[pos] as int * 256 + payload[pos + 1];
      if pos + 2 + len >= |payload| then Cut
      else Next(Topic(payload[pos + 2..pos + 2 + len], payload[pos + 2 + len]), pos + 2 + len + 1)
  }

  // Calling it from position 0 on until it returns -1; None where a topic would
  // be read past the end of the payload.
  function Topics(payload: seq<byte>, pos: nat): (r: Option<seq<Topic>>)
    ensures r.Some? ==> forall i :: 0 <= i < |r.value| ==> |r.value[i].name| <= 0xFFFF
    decreases |payload| - pos
  {
    match NextTopic(payload, pos)
    case End => Some([])
    case Cut => None
    case Next(t, next) =>
      match Topics(payload, next)
      case None => None
      case Some(ts) => Some([t] + ts)
  }

  // mg_mqtt_next_subscribe_topic, where the topic lies within the payload; the
  // position is -1 at the end.
  method NextSubscribeTopic(payload: seq<byte>, at: nat) returns (topic: Topic, pos: int)
    requires NextTopic(payload, at) != Cut
    ensures match NextTopic(payload, at)
            case End => pos == -1
            case Next(t, next) => topic == t && pos == next
  {
    topic, pos := Topic([], 0), -1;
    if at < |payload| {
      var len := payload[at] as int * 256 + payload[at + 1];
      topic := Topic(payload[at + 2..at + 2 + len], payload[at + 2 + len]);
      pos := at + 2 + len + 1;
    }
  }

  // Iterating it yields every topic of a payload.
  method ReadTopics(payload: seq<byte>) returns (topics: seq<Topic>)
    requires Topics(payload, 0).Some?
    ensures Topics(payload, 0) == Some(topics)
  {
    hide NextTopic;
    topics := [];
    var pos := 0;
    ghost var left := Topics(payload, 0);
    assert [] + left.value == left.value;
    while pos != -1
      invariant -1 <= pos <= |payload|
      invariant left.Some? && Topics(payload, 0) == Some(topics + left.value)
      invariant if pos == -1 then left == Some([]) else left == Topics(payload, pos)
      decreases if pos == -1 then -1 else |payload| - pos
    {
      var topic, next := NextSubscribeTopic(payload, pos);
      if next != -1 {
        left := Topics(payload, next);
        assert topics + ([topic] + left.value) == topics + [topic] + left.value;
        topics := topics + [topic];
      }
      pos := next;
    }
    assert topics + [] == topics;
  }

  // ------------------------------------------------------------ round trip

  lemma {:induction false} LengthReads(a: seq<byte>, n: nat, t: seq<byte>, unit: nat)
    ensures ReadLength(a + VarLen(n) + t, |a|, unit) == Length(Times(n, unit), |a| + |VarLen(n)|)
    decreases n
  {
    hide Times;
    var s := a + VarLen(n) + t;
    assert s[|a|] == VarLen(n)[0];
    if n >= 0x80 {
      var head := [VarLen(n)[0]];
      assert s == (a + head) + VarLen(n / 0x80) + t;
      LengthReads(a + head, n / 0x80, t, Times(unit, 0x80));
      InUnits(n, unit);
    }
  }

  lemma InUnits(n: nat, unit: nat)
    ensures Times(n % 0x80, unit) + Times(n / 0x80, Times(unit, 0x80)) == Times(n, unit)
  {
    var q, r := n / 0x80, n % 0x80;
    assert n == q * 0x80 + r;
    assert (q * 0x80 + r) * unit == q * 0x80 * unit + r * unit;
  }

  predicate Short(topics: seq<Topic>) {
    forall i :: 0 <= i < |topics| ==> |topics[i].name| <= 0xFFFF
  }

  lemma TopicReads(a: seq<byte>, t: Topic, b: seq<byte>)
    requires |t.name| <= 0xFFFF
    ensures NextTopic(a + TopicBytes(t) + b, |a|) == Next(t, |a| + |TopicBytes(t)|)
  {
    var n, s := |t.name|, a + TopicBytes(t) + b;
    var w := TopicBytes(t);
    assert w[0] as int * 256 + w[1] == n;
    assert s[|a|] == w[0] && s[|a| + 1] == w[1] && s[|a| + 2 + n] == w[2 + n] == t.qos;
    assert s[|a| + 2..|a| + 2 + n] == w[2..2 + n] == t.name;
  }

  // The topics behind position |a| of the payload
  lemma {:induction false} TopicsRead(topics: seq<Topic>, k: nat)
    requires Short(topics) && k <= |topics|
    ensures Topics(TopicsBytes(topics), |TopicsBytes(topics[..k])|) == Some(topics[k..])
    ensures TopicsBytes(topics[..k]) <= TopicsBytes(topics)
    decreases |topics| - k
  {
    hide TopicBytes, NextTopic, TopicsBytes;
    var whole := TopicsBytes(topics);
    if k == |topics| {
      assert topics[..k] == topics && topics[k..] == [];
      AtEnd(whole);
    } else {
      TopicsRead(topics, k + 1);
      TopicAdded(topics, k);
      var a, w := TopicsBytes(topics[..k]), TopicBytes(topics[k]);
      var b := whole[|a + w|..];
      assert whole == a + w + b;
      TopicReads(a, topics[k], b);
      assert topics[k..] == [topics[k]] + topics[k + 1..];
    }
  }

  lemma AtEnd(payload: seq<byte>)
    ensures NextTopic(payload, |payload|) == End
  {}

  // Where the reader finds the fields of a packet that was written
  lemma PacketReads(topics: seq<Topic>, id: u16, t: seq<byte>)
    requires 2 + |TopicsBytes(topics)| < LENGTH_LIMIT
    ensures var s := Subscribe(topics, id) + t;
            Complete(s) && Parse(s) == Message(|Subscribe(topics, id)|, CMD_SUBSCRIBE, 1, id, TopicsBytes(topics))
  {
    hide VarLen, TopicsBytes, ReadLength;
    var body := Be16(id) + TopicsBytes(topics);
    var h, v := [Header(CMD_SUBSCRIBE, 2)], VarLen(|body|);
    var s := Subscribe(topics, id) + t;
    assert s == h + v + (body + t);
    LengthReads(h, |body|, body + t, 1);
    var p := 1 + |v|;
    assert s[p..p + |body|] == body;
    assert s[p] == body[0] && s[p + 1] == body[1];
    assert s[p + 2..p + |body|] == body[2..] == TopicsBytes(topics);
  }

  // A packet comes back with its exact size, message id and QoS, whatever follows
  // it; its topics come back exactly when no name is longer than 65535 bytes.
  lemma SubscribeReads(topics: seq<Topic>, id: u16, t: seq<byte>)
    requires 2 + |TopicsBytes(topics)| < LENGTH_LIMIT
    ensures var s := Subscribe(topics, id) + t;
            && Complete(s) && Parse(s).size == |Subscribe(topics, id)| && Parse(s).cmd == CMD_SUBSCRIBE
            && Parse(s).qos == 1 && Parse(s).id == id
            && (Topics(Parse(s).payload, 0) == Some(topics) <==> Short(topics))
  {
    hide Subscribe, TopicsBytes, Topics, Complete, Parse;
    PacketReads(topics, id, t);
    if Short(topics) {
      TopicsRead(topics, 0);
      assert topics[..0] == [] && topics[0..] == topics;
      NoTopics();
    }
  }

  // A name of 65536 bytes is announced as empty; its first byte is taken for the QoS.
  lemma LongNameMisread(name: seq<byte>, qos: byte, id: u16)
    requires |name| == 65536
    ensures var topics := [Topic(name, qos)];
            var s := Subscribe(topics, id);
            && 2 + |TopicsBytes(topics)| < LENGTH_LIMIT
            && Complete(s) && NextTopic(Parse(s).payload, 0) == Next(Topic([], name[0]), 3)
            && Topics(Parse(s).payload, 0) != Some(topics)
  {
    hide Subscribe, Complete, Parse, TopicsBytes, Topics, NextTopic;
    var topics := [Topic(name, qos)];
    var s := Subscribe(topics, id);
    OneTopic(topics[0]);
    SubscribeReads(topics, id, []);
    assert s + [] == s;
    PacketReads(topics, id, []);
    FirstOfLong(name, qos);
  }

  lemma OneTopic(t: Topic)
    ensures TopicsBytes([t]) == TopicBytes(t) && |TopicBytes(t)| == |t.name| + 3
  {
    assert [t][..0] == [];
    assert [] + TopicBytes(t) == TopicBytes(t);
  }

  lemma FirstOfLong(name: seq<byte>, qos: byte)
    requires |name| == 65536
    ensures NextTopic(TopicBytes(Topic(name, qos)), 0) == Next(Topic([], name[0]), 3)
  {
    var w := TopicBytes(Topic(name, qos));
    assert w[0] == 0 && w[1] == 0 && w[2] == name[0] && |w| == 65539;
    assert w[2..2] == [];
  }

  lemma NoTopics()
    ensures TopicsBytes([]) == []
  {}
}
