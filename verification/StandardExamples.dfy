// Texts and packets written out: examples of the standards, and what the programs
// print and send for a few values.
module StandardExamples {
  import opened Bytes
  import opened MdnsName
  import opened MdnsDecode
  import opened MdnsWriter
  import opened MdnsRoundTrip
  import opened MdnsPacketRoundTrip
  import opened MdnsLimits
  import Base64
  import Base64Decode
  import HttpChunk
  import Mqtt
  import opened JsonPrint
  import JsonDuplicate

  // -------------------------------------- table 1 and section 10 of RFC 4648

  lemma Base64Alphabet(v: Base64.sextet)
    ensures Base64.Code(v) ==
            if v < 26 then 'A' as int + v
            else if v < 52 then 'a' as int + (v - 26)
            else if v < 62 then '0' as int + (v - 52)
            else if v == 62 then '+' as int
            else '/' as int
    ensures Base64.PAD == '=' as int
  {}

  // The tables of the two decoders
  lemma DecoderTables(ch: byte, v: Base64.sextet)
    ensures Base64.Code(v) == ch % 128 ==> Base64Decode.FromB64(ch) == v
    ensures ch % 128 == '=' as int <==> Base64Decode.FromB64(ch) == 200
    ensures Base64Decode.FromB64(ch) in {200, 255} || Base64.Code(Base64Decode.FromB64(ch)) == ch % 128
    ensures Base64.Code(v) == ch ==> Base64Decode.Sextet(ch) == v
    ensures Base64Decode.Sextet(ch) == 0 || Base64.Code(Base64Decode.Sextet(ch)) == ch
  {}

  lemma EncodedWhole()
    ensures Base64.Encode(Ascii("foobar")) == Ascii("Zm9vYmFy")
  {
    hide *;
    TwoGroups(Ascii("foo"), Ascii("bar"));
    Groups();
    Texts();
  }

  lemma EncodedPadded()
    ensures Base64.Encode(Ascii("fooba")) == Ascii("Zm9vYmE=")
  {
    hide *;
    TwoGroups(Ascii("foo"), Ascii("ba"));
    Groups();
    Texts();
  }

  lemma EncodedPaddedTwice()
    ensures Base64.Encode(Ascii("foob")) == Ascii("Zm9vYg==")
  {
    hide *;
    TwoGroups(Ascii("foo"), Ascii("b"));
    Groups();
    Texts();
  }

  lemma TwoGroups(g: seq<byte>, h: seq<byte>)
    requires |g| == 3 && 1 <= |h| <= 3
    ensures Base64.Encode(g + h) == Base64.Group(g) + Base64.Group(h)
  {
    hide Base64.Encode, Base64.Group;
    Base64.EncodeAppend(g, h);
    OneGroup(g);
    OneGroup(h);
  }

  lemma OneGroup(g: seq<byte>)
    requires 1 <= |g| <= 3
    ensures Base64.Encode(g) == Base64.Group(g)
  {
    hide Base64.Group;
  }

  lemma Texts()
    ensures Ascii("foobar") == Ascii("foo") + Ascii("bar") && Ascii("fooba") == Ascii("foo") + Ascii("ba")
    ensures Ascii("foob") == Ascii("foo") + Ascii("b")
    ensures Ascii("Zm9vYmFy") == Ascii("Zm9v") + Ascii("YmFy") && Ascii("Zm9vYmE=") == Ascii("Zm9v") + Ascii("YmE=")
    ensures Ascii("Zm9vYg==") == Ascii("Zm9v") + Ascii("Yg==")
  {}

  lemma Groups()
    ensures Base64.Group(Ascii("foo")) == Ascii("Zm9v") && Base64.Group(Ascii("bar")) == Ascii("YmFy")
    ensures Base64.Group(Ascii("ba")) == Ascii("YmE=") && Base64.Group(Ascii("b")) == Ascii("Yg==")
  {
    hide Base64.Group, Ascii;
    GroupFoo();
    GroupBar();
    GroupBa();
    GroupB();
  }

  lemma GroupFoo()
    ensures Base64.Group(Ascii("foo")) == Ascii("Zm9v")
  {}

  lemma GroupBar()
    ensures Base64.Group(Ascii("bar")) == Ascii("YmFy")
  {}

  lemma GroupBa()
    ensures Base64.Group(Ascii("ba")) == Ascii("YmE=")
  {}

  lemma GroupB()
    ensures Base64.Group(Ascii("b")) == Ascii("Yg==")
  {}

  // ------------------------------------------- section 4.1 of RFC 7230

  lemma ChunkExample()
    ensures HttpChunk.Stream([Ascii("Hello, world")]) == Ascii("C\r\nHello, world\r\n") + Ascii("0\r\n\r\n")
  {
    var one := [Ascii("Hello, world")];
    assert one[1..] == [];
    assert HttpChunk.Written([]) == Ascii("0\r\n\r\n");
    assert HttpChunk.Written(one[0]) == Ascii("C\r\nHello, world\r\n");
  }

  // ------------------------------ sections 2.2.3 and 3.8.3 of MQTT 3.1.1

  lemma SubscribeExample()
    ensures Mqtt.VarLen(321) == [193, 2]
    ensures Mqtt.Subscribe([Mqtt.Topic(Ascii("a/b"), 1), Mqtt.Topic(Ascii("c/d"), 2)], 10)
            == [0x82, 14, 0, 10, 0, 3] + Ascii("a/b") + [1, 0, 3] + Ascii("c/d") + [2]
  {
    hide Mqtt.TopicBytes, Mqtt.TopicsBytes, Ascii;
    var first, second := Mqtt.Topic(Ascii("a/b"), 1), Mqtt.Topic(Ascii("c/d"), 2);
    TopicExample(Ascii("a/b"), 1);
    TopicExample(Ascii("c/d"), 2);
    TwoTopics(first, second);
    VarLens();
    assert Be16(10) == [0, 10];
  }

  lemma TwoTopics(first: Mqtt.Topic, second: Mqtt.Topic)
    ensures Mqtt.TopicsBytes([first, second]) == Mqtt.TopicBytes(first) + Mqtt.TopicBytes(second)
  {
    hide Mqtt.TopicBytes;
    assert [first, second][..1] == [first] && [first][..0] == [];
    assert Mqtt.TopicsBytes([first]) == [] + Mqtt.TopicBytes(first);
    assert [] + Mqtt.TopicBytes(first) == Mqtt.TopicBytes(first);
  }

  lemma TopicExample(name: seq<byte>, qos: byte)
    requires |name| == 3
    ensures Mqtt.TopicBytes(Mqtt.Topic(name, qos)) == [0, 3] + name + [qos]
  {}

  lemma VarLens()
    ensures Mqtt.VarLen(321) == [193, 2] && Mqtt.VarLen(14) == [14]
  {}

  // The types of cJSON.h
  lemma Types(number: int, text: seq<byte>)
    ensures var leaf := (kind: nat, t: Option<seq<byte>>) => JsonDuplicate.Tree(kind, number, t, None, []);
            && JsonDuplicate.Meaning(leaf(0, None)) == Some(False) && JsonDuplicate.Meaning(leaf(1, None)) == Some(True)
            && JsonDuplicate.Meaning(leaf(2, None)) == Some(Null)
            && JsonDuplicate.Meaning(leaf(3, None)) == Some(Number(number, 0))
            && JsonDuplicate.Meaning(leaf(4, Some(text))) == Some(String(text))
            && JsonDuplicate.Meaning(leaf(5, None)) == Some(Array(NoItems))
            && JsonDuplicate.Meaning(leaf(6, None)) == Some(Object(NoMembers))
  {}

  // ------------------------------------------- section 4.1.4 of RFC 1035

  const NAME: seq<byte> := [1, 0x61] + LOCAL

  function TwoNames(): seq<byte> {
    [5] + Ascii("local") + [0, 1] + Ascii("a") + [0xC0, 12]
  }

  // "local", and behind it "a.local" with a jump to where the first name starts.
  lemma CompressedExample(buf: seq<byte>)
    requires |buf| == OUTPACKET_SIZE
    ensures Writable(LOCAL) && Writable(NAME)
    ensures var first := WriteDomain(Fresh(buf), LOCAL, false);
            var second := WriteDomain(first.out, NAME, false);
            && first.ok && second.ok && second.out.woff == 23
            && second.out.buf[12..23] == TwoNames()
  {
    hide *;
    Names();
    var o := FirstCut(buf);
    FirstBytes(buf);
    SecondBytes(o);
    Letters();
  }

  // The second name has its tail in the first.
  lemma FirstCut(buf: seq<byte>) returns (o: Out)
    requires |buf| == OUTPACKET_SIZE && Writable(LOCAL) && Writable(NAME)
    ensures WriteDomain(Fresh(buf), LOCAL, false) == Written(true, o) && BestCut(o, NAME, false) == Cut(2, 12)
  {
    hide WriteDomain, BestCut, Decodes, Boundary, NameEnd, Reuses;
    Names();
    var e := FirstWrite(buf, LOCAL);
    o := WriteDomain(Fresh(buf), LOCAL, false).out;
    CutDetermined(o, [e], 0, NAME, 2);
  }

  lemma Letters()
    ensures LOCAL + [1, 0x61, 0xC0, 12] == TwoNames()
  {}

  lemma Names()
    ensures Writable(LOCAL) && Writable(NAME) && Boundary(NAME, 0, 2) && Reuses(LOCAL, 7, NAME, 2)
    ensures LandingPos(LOCAL, NAME, 2) == 0
  {
    assert LOCAL[0] == 5 && LOCAL[6] == 0 && WfFrom(LOCAL, 6);
    assert NAME[0] == 1 && NAME[2] == 5 && NAME[8] == 0 && |NAME| == 9;
    assert WfFrom(NAME, 8) && WfFrom(NAME, 2);
    assert Boundary(NAME, 2, 2);
    forall x | 2 <= x < |NAME| ensures NAME[x] == LOCAL[0 + (x - 2)] {}
  }

  lemma FirstBytes(buf: seq<byte>)
    requires |buf| == OUTPACKET_SIZE && Writable(LOCAL)
    ensures var o := WriteDomain(Fresh(buf), LOCAL, false).out; ValidOut(o) && o.woff == 19 && o.buf[12..19] == LOCAL
  {
    hide WriteDomain, BestCut, Compress, NoneShorter;
    WriteWithinBounds(Fresh(buf), LOCAL, false);
    var used := BestCutMeaning(Fresh(buf), LOCAL, false);
  }

  lemma SecondBytes(o: Out)
    requires ValidOut(o) && o.woff == 19 && o.buf[12..19] == LOCAL && Writable(NAME)
    requires BestCut(o, NAME, false) == Cut(2, 12)
    ensures var w := WriteDomain(o, NAME, false);
            && w.ok && w.out.woff == 23 && |w.out.buf| == OUTPACKET_SIZE
            && w.out.buf[12..23] == LOCAL + [1, 0x61, 0xC0, 12]
  {
    hide WriteDomain, BestCut;
    WriteWithinBounds(o, NAME, false);
    var p := WriteDomain(o, NAME, false).out.buf;
    JumpIs(p[21], p[22], 12);
    assert forall i :: 0 <= i < 7 ==> p[12 + i] == o.buf[12..19][i];
    assert p[19] == NAME[0] && p[20] == NAME[1];
  }

  lemma JumpIs(hi: byte, lo: byte, target: nat)
    requires hi >= JUMP && JumpTarget(hi, lo) == target && target < 0x100
    ensures hi == 0xC0 && lo == target
  {}
}
