// The records a responder of ports/mdns/mdns.c owns, in the terms of RFC 1035 and
// RFC 6762: what a question must say to select one, and what a known answer must
// say to suppress it.
module MdnsRecords {
  import opened Bytes
  import opened MdnsName
  import opened MdnsPacket
  import opened MdnsPacketReader
  import opened MdnsResponder

  // The name has these labels, whatever the case of the letters.
  ghost predicate Called(name: seq<byte>, labels: seq<seq<byte>>) {
    && WfName(name) && var texts := LabelTexts(name, 0);
    |texts| == |labels| && forall k :: 0 <= k < |texts| ==> SameText(texts[k], labels[k])
  }

  function DecimalText(b: byte): seq<byte> {
    var zero := '0' as int;
    if b < 10 then [zero + b]
    else if b < 100 then [zero + b / 10, zero + b % 10]
    else [zero + b / 100, zero + b / 10 % 10, zero + b % 10]
  }

  // Host replies belong to no service, the others to one.
  predicate BelongsTo(r: Reply, s: Option<Service>) {
    s.None? <==> r.HostA? || r.HostPtr?
  }

  // The owner's name of the record of a reply
  function OwnLabels(h: Host, s: Option<Service>, r: Reply): seq<seq<byte>>
    requires BelongsTo(r, s)
  {
    var a := h.address;
    match r
    case HostA => [h.name, Ascii("local")]
    case HostPtr =>
      [DecimalText(a[3]), DecimalText(a[2]), DecimalText(a[1]), DecimalText(a[0]), Ascii("in-addr"), Ascii("arpa")]
    case TypePtr => [Ascii("_services"), Ascii("_dns-sd"), Ascii("_udp"), Ascii("local")]
    case NamePtr => TypeLabels(s.value)
    case Srv => InstanceLabels(s.value)
    case Txt => InstanceLabels(s.value)
  }

  function TypeLabels(s: Service): seq<seq<byte>> {
    [s.kind, if s.tcp then Ascii("_tcp") else Ascii("_udp"), Ascii("local")]
  }

  function InstanceLabels(s: Service): seq<seq<byte>> {
    [s.name, s.kind, if s.tcp then Ascii("_tcp") else Ascii("_udp"), Ascii("local")]
  }

  // The numbers of section 3.2.2 of RFC 1035 and of RFC 2782
  function RecordType(r: Reply): u16 {
    match r
    case HostA => 1
    case HostPtr => 12
    case TypePtr => 12
    case NamePtr => 12
    case Txt => 16
    case Srv => 33
  }

  // A question for this record: of class IN or ANY, of its type or ANY, with its name.
  ghost predicate AsksFor(h: Host, s: Option<Service>, rr: Rr, r: Reply) {
    && BelongsTo(r, s) && (s.None? ==> h.address != [0, 0, 0, 0])
    && (rr.klass == 1 || rr.klass == 255) && (rr.rtype == RecordType(r) || rr.rtype == 255)
    && Called(rr.name, OwnLabels(h, s, r))
  }

  // The name that stands at this offset has these labels.
  ghost predicate CalledAt(p: seq<byte>, offset: u16, labels: seq<seq<byte>>)
    requires |p| < 0x1_0000
  {
    ReadName(p, offset).end != 0xFFFF && Called(ReadName(p, offset).name, labels)
  }

  ghost predicate BytesAt(p: seq<byte>, offset: nat, data: seq<byte>) {
    offset + |data| <= |p| && forall i :: 0 <= i < |data| ==> p[offset + i] == data[i]
  }

  // The data of the record of a reply: an address, a name, the four fields of SRV, or the text.
  ghost predicate HasData(h: Host, s: Option<Service>, p: seq<byte>, f: Found, r: Reply)
    requires |p| < 0x1_0000 && BelongsTo(r, s)
  {
    match r
    case HostA => f.rdLength == 4 && BytesAt(p, f.rdOffset, h.address)
    case HostPtr => CalledAt(p, f.rdOffset, [h.name, Ascii("local")])
    case TypePtr => CalledAt(p, f.rdOffset, TypeLabels(s.value))
    case NamePtr => CalledAt(p, f.rdOffset, InstanceLabels(s.value))
    case Srv =>
      && BytesAt(p, f.rdOffset, [0, 0, 0, 0, s.value.port / 256, s.value.port % 256])
      && CalledAt(p, U16(f.rdOffset + 6), [h.name, Ascii("local")])
    case Txt => f.rdLength == |s.value.txt| && BytesAt(p, f.rdOffset, s.value.txt)
  }

  function Lifetime(h: Host, s: Option<Service>): u32 {
    if s.None? then h.ttl else s.value.ttl
  }

  // A known answer with this record, with more than half of its lifetime left (section 7.1 of RFC 6762).
  ghost predicate Gives(h: Host, s: Option<Service>, p: seq<byte>, f: Found, r: Reply)
    requires |p| < 0x1_0000
  {
    && BelongsTo(r, s) && f.rr.klass == 1 && f.rr.rtype == RecordType(r)
    && Called(f.rr.name, OwnLabels(h, s, r)) && HasData(h, s, p, f, r)
    && 2 * f.ttl > Lifetime(h, s)
  }

  // ----------------------------------------------- what the program compares

  lemma BuiltMeans(name: seq<byte>, labels: seq<Text>)
    requires WfName(name)
    ensures DomainEq(name, Build(labels)) <==> Called(name, labels)
  {
    hide DomainEq, LabelTexts, Lowered, SameText, Build;
    DomainEqMeans(name, Build(labels));
    var texts := LabelTexts(name, 0);
    if |texts| == |labels| {
      forall k | 0 <= k < |texts| ensures Lowered(texts[k]) == Lowered(labels[k]) <==> SameText(texts[k], labels[k]) {
        LoweredMeans(texts[k], labels[k]);
      }
    }
  }

  lemma Words()
    ensures LOCAL == Ascii("local") && ARPA == Ascii("arpa") && IN_ADDR == Ascii("in-addr")
    ensures UDP == Ascii("_udp") && TCP == Ascii("_tcp")
    ensures SERVICES == Ascii("_services") && DNS_SD == Ascii("_dns-sd")
  {}

  lemma DecimalIs(b: byte)
    ensures Decimal(b) == DecimalText(b)
  {
    var tens := b / 10;
    if tens >= 10 {
      assert tens / 10 == b / 100 && Digits(tens / 10) == [DIGIT_0 + tens / 10];
      assert Digits(tens) == [DIGIT_0 + tens / 10] + [DIGIT_0 + tens % 10];
      assert Digits(b) == Digits(tens) + [DIGIT_0 + b % 10];
    } else if tens > 0 {
      assert Digits(tens) == [DIGIT_0 + tens];
    }
  }

  lemma HostNameIs(h: Host, name: seq<byte>)
    requires WfName(name)
    ensures DomainEq(name, HostName(h)) <==> Called(name, [h.name, Ascii("local")])
  {
    hide DomainEq, Called, Ascii;
    Words();
    BuiltMeans(name, [h.name, LOCAL]);
  }

  lemma ReverseNameIs(h: Host, name: seq<byte>)
    requires WfName(name)
    ensures DomainEq(name, ReverseName(h.address)) <==> Called(name, OwnLabels(h, None, HostPtr))
  {
    hide DomainEq, Called, Ascii, Decimal, DecimalText;
    Words();
    var a := h.address;
    DecimalIs(a[0]);
    DecimalIs(a[1]);
    DecimalIs(a[2]);
    DecimalIs(a[3]);
    BuiltMeans(name, [Decimal(a[3]), Decimal(a[2]), Decimal(a[1]), Decimal(a[0]), IN_ADDR, ARPA]);
  }

  lemma ServiceNamesAre(s: Service, name: seq<byte>)
    requires WfName(name)
    ensures DomainEq(name, DnssdName()) <==>
            Called(name, [Ascii("_services"), Ascii("_dns-sd"), Ascii("_udp"), Ascii("local")])
    ensures DomainEq(name, ServiceName(s, false)) <==> Called(name, TypeLabels(s))
    ensures DomainEq(name, ServiceName(s, true)) <==> Called(name, InstanceLabels(s))
  {
    hide DomainEq, Called, Ascii;
    Words();
    BuiltMeans(name, [SERVICES, DNS_SD, UDP, LOCAL]);
    var rest: seq<Text> := [s.kind, if s.tcp then TCP else UDP, LOCAL];
    BuiltMeans(name, [] + rest);
    BuiltMeans(name, [s.name] + rest);
    assert [] + rest == TypeLabels(s) && [s.name] + rest == InstanceLabels(s);
  }

  // ------------------------------------------------------ what is selected

  // check_host selects exactly the records of the host that the question asks for.
  lemma HostSelects(h: Host, rr: Asking, r: Reply)
    ensures r in CheckHost(h, rr) <==> AsksFor(h, None, rr, r)
  {
    hide DomainEq, Called, Ascii, HostName, ReverseName;
    HostNameIs(h, rr.name);
    ReverseNameIs(h, rr.name);
  }

  // check_service selects exactly the records of the service.
  lemma ServiceSelects(h: Host, s: Service, rr: Asking, r: Reply)
    ensures r in CheckService(s, rr) <==> AsksFor(h, Some(s), rr, r)
  {
    hide DomainEq, Called, Ascii, ServiceName, DnssdName, TypeLabels, InstanceLabels;
    ServiceNamesAre(s, rr.name);
  }

  // ---------------------------------------------------- what is suppressed

  lemma DataBytes(p: seq<byte>, f: Found, data: seq<byte>)
    ensures SameData(p, f, data) <==> f.rdLength == |data| && BytesAt(p, f.rdOffset, data)
  {
    if f.rdLength == |data| && f.rdOffset + |data| <= |p| {
      var x := p[f.rdOffset..f.rdOffset + f.rdLength];
      assert forall i :: 0 <= i < |data| ==> x[i] == p[f.rdOffset + i];
    }
  }

  lemma FieldBytes(p: seq<byte>, offset: nat, n: u16)
    ensures FieldIs(p, offset, n) <==> BytesAt(p, offset, [n / 256, n % 256])
  {
    if offset + 2 <= |p| {
      var x := p[offset..offset + 2];
      var y := [n / 256, n % 256];
      assert x[0] == p[offset + 0] && x[1] == p[offset + 1] && y[0] == n / 256 && y[1] == n % 256;
      assert FromBe16(x) == n <==> x[0] == y[0] && x[1] == y[1];
    }
  }

  lemma SrvFields(p: seq<byte>, offset: nat, port: u16)
    ensures FieldIs(p, offset, 0) && FieldIs(p, offset + 2, 0) && FieldIs(p, offset + 4, port)
            <==> BytesAt(p, offset, [0, 0, 0, 0, port / 256, port % 256])
  {
    hide FieldIs;
    FieldBytes(p, offset, 0);
    FieldBytes(p, offset + 2, 0);
    FieldBytes(p, offset + 4, port);
    var all := [0, 0, 0, 0, port / 256, port % 256];
    if BytesAt(p, offset, all) {
      assert p[offset + 0] == all[0] && p[offset + 1] == all[1] && p[offset + 2] == all[2] && p[offset + 3] == all[3];
      assert p[offset + 4] == all[4] && p[offset + 5] == all[5];
    }
    if BytesAt(p, offset, [0, 0]) && BytesAt(p, offset + 2, [0, 0])
       && BytesAt(p, offset + 4, [port / 256, port % 256])
    {
      assert p[offset + 0] == [0, 0][0] && p[offset + 1] == [0, 0][1];
      assert p[offset + 2 + 0] == [0, 0][0] && p[offset + 2 + 1] == [0, 0][1];
      assert p[offset + 4 + 0] == [port / 256, port % 256][0] && p[offset + 4 + 1] == [port / 256, port % 256][1];
    }
  }

  lemma NamedMeans(h: Host, s: Option<Service>, p: seq<byte>, offset: u16)
    requires |p| < 0x1_0000
    ensures NamedAt(p, offset, HostName(h)) <==> CalledAt(p, offset, [h.name, Ascii("local")])
    ensures s.Some? ==>
              && (NamedAt(p, offset, ServiceName(s.value, false)) <==> CalledAt(p, offset, TypeLabels(s.value)))
              && (NamedAt(p, offset, ServiceName(s.value, true)) <==> CalledAt(p, offset, InstanceLabels(s.value)))
  {
    hide ReadName, DomainEq, Ascii, HostName, ServiceName, TypeLabels, InstanceLabels, LabelTexts, SameText;
    ReadNameWellFormed(p, offset);
    var r := ReadName(p, offset);
    if r.end != READNAME_ERROR {
      HostNameIs(h, r.name);
      if s.Some? {
        ServiceNamesAre(s.value, r.name);
      }
    }
  }

  lemma DataMeans(h: Host, s: Option<Service>, p: seq<byte>, f: Found, r: Reply)
    requires |p| < 0x1_0000 && BelongsTo(r, s)
    ensures DataIs(h, s, p, f, r) <==> HasData(h, s, p, f, r)
  {
    hide NamedAt, CalledAt, SameData, FieldIs, BytesAt, Ascii, HostName, ServiceName, TypeLabels, InstanceLabels;
    NamedMeans(h, s, p, f.rdOffset);
    NamedMeans(h, s, p, U16(f.rdOffset + 6));
    DataBytes(p, f, h.address);
    if s.Some? {
      DataBytes(p, f, s.value.txt);
      SrvFields(p, f.rdOffset, s.value.port);
    }
  }

  // What the program takes for known is exactly what a known answer gives.
  lemma KnowsMeans(h: Host, s: Option<Service>, p: seq<byte>, f: Known, r: Reply)
    requires |p| < 0x1_0000 && BelongsTo(r, s)
    ensures Knows(h, s, p, f, r) <==> Gives(h, s, p, f, r)
  {
    hide DataIs, HasData, DomainEq, Called, Ascii, HostName, ReverseName, ServiceName, DnssdName, TypeLabels;
    hide InstanceLabels;
    DataMeans(h, s, p, f, r);
    HostNameIs(h, f.rr.name);
    ReverseNameIs(h, f.rr.name);
    if s.Some? {
      ServiceNamesAre(s.value, f.rr.name);
    }
  }
}
