// Choosing the replies to a query in ports/mdns/mdns.c: what a question selects,
// and which of it a known answer suppresses (section 7.1 of RFC 6762), in the
// IPv4 build.
module MdnsResponder {
  import opened Bytes
  import opened MdnsName
  import opened MdnsPacket
  import opened MdnsPacketReader

  // ------------------------------------------------------- comparing names

  // The loop of mdns_domain_eq from a label on.
  predicate EqFrom(a: seq<byte>, b: seq<byte>, i: nat)
    requires WfFrom(a, i) && WfFrom(b, i)
    decreases |a| - i
  {
    a[i] == b[i] &&
    (a[i] == 0 ||
     (Lowered(a[i + 1..i + 1 + a[i]]) == Lowered(b[i + 1..i + 1 + b[i]]) && EqFrom(a, b, i + 1 + a[i])))
  }

  predicate DomainEq(a: seq<byte>, b: seq<byte>)
    requires WfName(a) && WfName(b)
  {
    |a| == |b| && EqFrom(a, b, 0)
  }

  // The labels of a name, as texts.
  function LabelTexts(n: seq<byte>, i: nat): seq<seq<byte>>
    requires WfFrom(n, i)
    decreases |n| - i
  {
    if n[i] == 0 then [] else [n[i + 1..i + 1 + n[i]]] + LabelTexts(n, i + 1 + n[i])
  }

  predicate SameLabels(a: seq<seq<byte>>, b: seq<seq<byte>>) {
    |a| == |b| && forall k :: 0 <= k < |a| ==> Lowered(a[k]) == Lowered(b[k])
  }

  // Names are equal when they have the same labels, whatever the case of the letters.
  lemma DomainEqMeans(a: seq<byte>, b: seq<byte>)
    requires WfName(a) && WfName(b)
    ensures DomainEq(a, b) <==> SameLabels(LabelTexts(a, 0), LabelTexts(b, 0))
  {
    EqFromMeans(a, b, 0);
  }

  lemma {:induction false} EqFromMeans(a: seq<byte>, b: seq<byte>, i: nat)
    requires WfFrom(a, i) && WfFrom(b, i)
    ensures EqFrom(a, b, i) <==> SameLabels(LabelTexts(a, i), LabelTexts(b, i))
    ensures EqFrom(a, b, i) ==> |a| == |b|
    decreases |a| - i
  {
    hide Lowered;
    if a[i] != 0 && b[i] != 0 {
      var x, y := a[i + 1..i + 1 + a[i]], b[i + 1..i + 1 + b[i]];
      if a[i] == b[i] {
        var r, t := LabelTexts(a, i + 1 + a[i]), LabelTexts(b, i + 1 + b[i]);
        EqFromMeans(a, b, i + 1 + a[i]);
        SameCons(x, r, y, t);
      } else {
        assert |Lowered(x)| != |Lowered(y)|;
        assert LabelTexts(a, i)[0] == x && LabelTexts(b, i)[0] == y;
      }
    }
  }

  lemma SameCons(x: seq<byte>, r: seq<seq<byte>>, y: seq<byte>, t: seq<seq<byte>>)
    ensures SameLabels([x] + r, [y] + t) <==> Lowered(x) == Lowered(y) && SameLabels(r, t)
  {
    hide Lowered;
    if SameLabels([x] + r, [y] + t) {
      assert ([x] + r)[0] == x && ([y] + t)[0] == y;
      forall k | 0 <= k < |r| ensures Lowered(r[k]) == Lowered(t[k]) {
        assert ([x] + r)[k + 1] == r[k] && ([y] + t)[k + 1] == t[k];
      }
    }
  }

  // mdns_domain_eq
  method CompareDomains(a: Domain, b: Domain) returns (same: bool)
    requires a.Valid() && b.Valid() && WfName(a.Contents()) && WfName(b.Contents())
    ensures same == DomainEq(a.Contents(), b.Contents())
  {
    if a.length != b.length {
      return false;
    }
    ghost var x, y := a.Contents(), b.Contents();
    var ptr := 0;
    while a.name[ptr] != 0 && b.name[ptr] != 0
      invariant WfFrom(x, ptr) && WfFrom(y, ptr)
      invariant DomainEq(x, y) <==> EqFrom(x, y, ptr)
      decreases |x| - ptr
    {
      if a.name[ptr] != b.name[ptr] {
        return false;
      }
      var len := a.name[ptr];
      var same := SameNoCase(a, b, ptr + 1, len);
      if !same {
        return false;
      }
      ptr := ptr + 1 + len;
    }
    return a.name[ptr] == b.name[ptr];
  }

  // lwip_strnicmp on labels without zero bytes
  method SameNoCase(a: Domain, b: Domain, at: nat, len: nat) returns (same: bool)
    requires a.Valid() && b.Valid() && at + len <= a.length && at + len <= b.length
    ensures same == (Lowered(a.Contents()[at..at + len]) == Lowered(b.Contents()[at..at + len]))
  {
    ghost var x, y := a.Contents()[at..at + len], b.Contents()[at..at + len];
    for i := 0 to len
      invariant forall k :: 0 <= k < i ==> Lower(x[k]) == Lower(y[k])
    {
      if Lower(a.name[at + i]) != Lower(b.name[at + i]) {
        assert Lowered(x)[i] != Lowered(y)[i];
        return false;
      }
    }
    return true;
  }

  // ------------------------------------------------------------- own names

  // A C string that fits a label.
  type Text = s: seq<byte> | 0 < |s| <= LABEL_MAXLEN witness [0x61]

  const LOCAL: Text := [0x6C, 0x6F, 0x63, 0x61, 0x6C]
  const ARPA: Text := [0x61, 0x72, 0x70, 0x61]
  const IN_ADDR: Text := [0x69, 0x6E, 0x2D, 0x61, 0x64, 0x64, 0x72]
  const UDP: Text := [0x5F, 0x75, 0x64, 0x70]
  const TCP: Text := [0x5F, 0x74, 0x63, 0x70]
  const SERVICES: Text := [0x5F, 0x73, 0x65, 0x72, 0x76, 0x69, 0x63, 0x65, 0x73]
  const DNS_SD: Text := [0x5F, 0x64, 0x6E, 0x73, 0x2D, 0x73, 0x64]

  // Labels added one after the other, and the zero that ends the name.
  function Build(labels: seq<Text>): (n: seq<byte>)
    ensures WfName(n) && LabelTexts(n, 0) == labels
  {
    assert Joined(labels)[0..] == Joined(labels);
    BuildFrom(Joined(labels), 0, labels);
    Joined(labels)
  }

  function Joined(labels: seq<Text>): (n: seq<byte>)
    ensures n != []
  {
    if labels == [] then [0] else [|labels[0]|] + labels[0] + Joined(labels[1..])
  }

  lemma {:induction false} BuildFrom(n: seq<byte>, i: nat, labels: seq<Text>)
    requires i <= |n| && n[i..] == Joined(labels)
    ensures WfFrom(n, i) && LabelTexts(n, i) == labels
    decreases |labels|
  {
    if labels == [] {
      assert n[i..][0] == n[i];
    } else {
      var next := i + 1 + |labels[0]|;
      OneLabel(n, i, labels[0], Joined(labels[1..]));
      BuildFrom(n, next, labels[1..]);
      assert n[i + 1..next] == labels[0];
      assert labels == [labels[0]] + labels[1..];
    }
  }

  lemma OneLabel(n: seq<byte>, i: nat, t: Text, rest: seq<byte>)
    requires i <= |n| && n[i..] == [|t|] + t + rest && rest != []
    ensures i + 1 + |t| < |n| && n[i] == |t| && n[i + 1..i + 1 + |t|] == t && n[i + 1 + |t|..] == rest
    ensures forall k :: i < k <= i + |t| ==> n[k] == t[k - i - 1]
  {
    assert n[i] == n[i..][0];
    forall k | i < k <= i + |t| ensures n[k] == t[k - i - 1] {
      assert n[k] == n[i..][k - i];
    }
  }

  // What mdns_build_host_domain and its kin do with labels that fit.
  method BuildDomain(labels: seq<Text>) returns (domain: Domain)
    requires |Joined(labels)| <= DOMAIN_MAXLEN
    ensures fresh(domain) && fresh(domain.name) && domain.Valid() && domain.Contents() == Build(labels)
  {
    domain := new Domain();
    ghost var whole := Joined(labels);
    assert labels[0..] == labels && [] + whole == whole;
    for i := 0 to |labels|
      invariant domain.Valid() && fresh(domain) && fresh(domain.name)
      invariant domain.Contents() + Joined(labels[i..]) == whole
    {
      assert labels[i..][1..] == labels[i + 1..] && |Joined(labels[i + 1..])| > 0;
      ghost var was, rest := domain.Contents(), Joined(labels[i + 1..]);
      assert was + ([|labels[i]|] + labels[i] + rest) == was + [|labels[i]|] + labels[i] + rest;
      var ok := domain.AddLabel(labels[i]);
    }
    assert labels[|labels|..] == [];
    ghost var was := domain.Contents();
    var ok := domain.AddLabel([]);
    assert was + [0] + [] == was + [0];
  }

  // --------------------------------------------------------- what we answer

  type Address = s: seq<byte> | |s| == 4 witness [0, 0, 0, 0]

  // struct mdns_service, with the TXT data its callback provides.
  datatype Service = Service(name: Text, kind: Text, tcp: bool, port: u16, ttl: u32, txt: seq<byte>)

  // struct mdns_host, with the address of the network interface.
  datatype Host = Host(name: Text, address: Address, ttl: u32, services: seq<Option<Service>>)

  // The bits of the reply masks that the IPv4 build uses.
  datatype Reply = HostA | HostPtr | TypePtr | NamePtr | Srv | Txt

  const TYPE_A := 1
  const TYPE_PTR := 12
  const TYPE_TXT := 16
  const TYPE_SRV := 33
  const TYPE_ANY := 255
  const CLASS_IN := 1
  const CLASS_ANY := 255

  function HostName(h: Host): (n: seq<byte>)
    ensures WfName(n)
  {
    Build([h.name, LOCAL])
  }

  function ReverseName(a: Address): (n: seq<byte>)
    ensures WfName(n)
  {
    Build([Decimal(a[3]), Decimal(a[2]), Decimal(a[1]), Decimal(a[0]), IN_ADDR, ARPA])
  }

  // Labels shorter than m of bytes from m up make a tidy name.
  lemma {:induction false} JoinedTidy(n: seq<byte>, i: nat, labels: seq<Text>, m: nat)
    requires i <= |n| && n[i..] == Joined(labels)
    requires forall x :: 0 <= x < |labels| ==> |labels[x]| < m && forall k :: 0 <= k < |labels[x]| ==> labels[x][k] >= m
    ensures WfFrom(n, i) && Separated(n, i, m) && LabelsFrom(n, i) == |labels|
    decreases |labels|
  {
    if labels == [] {
      assert n[i..][0] == n[i];
    } else {
      OneLabel(n, i, labels[0], Joined(labels[1..]));
      JoinedTidy(n, i + 1 + |labels[0]|, labels[1..], m);
    }
  }

  lemma {:induction false} JoinedShort(labels: seq<Text>)
    requires forall i :: 0 <= i < |labels| ==> |labels[i]| < 32
    ensures |Joined(labels)| <= 32 * |labels| + 1
    decreases |labels|
  {
    if labels != [] {
      JoinedShort(labels[1..]);
    }
  }

  // The reverse name is tidy, and has six labels.
  lemma ReverseNameTidy(a: Address)
    ensures var n := ReverseName(a); WfName(n) && |n| < DOMAIN_MAXLEN && Separated(n, 0, 32) && Labels(n) == 6
  {
    hide Digits;
    forall b: byte ensures |Decimal(b)| <= 3 && forall k :: 0 <= k < |Decimal(b)| ==> Decimal(b)[k] >= 32 {
      DecimalDigits(b);
    }
    var labels := [Decimal(a[3]), Decimal(a[2]), Decimal(a[1]), Decimal(a[0]), IN_ADDR, ARPA];
    assert Joined(labels)[0..] == Joined(labels);
    JoinedTidy(Joined(labels), 0, labels, 32);
    JoinedShort(labels);
  }

  lemma DecimalDigits(b: byte)
    ensures |Decimal(b)| <= 3 && forall k :: 0 <= k < |Decimal(b)| ==> Decimal(b)[k] >= 32
  {
    var tens := b / 10;
    assert tens >= 10 ==> Digits(tens) == [DIGIT_0 + tens / 10] + [DIGIT_0 + tens % 10];
    assert tens < 10 ==> Digits(tens) == [DIGIT_0 + tens];
  }

  function Decimal(b: byte): Text {
    assert |Digits(b)| <= 3 by {
      if b >= 10 {
        assert |Digits(b / 10)| <= 2;
      }
    }
    Digits(b)
  }

  function DnssdName(): (n: seq<byte>)
    ensures WfName(n)
  {
    Build([SERVICES, DNS_SD, UDP, LOCAL])
  }

  function ServiceName(s: Service, instance: bool): (n: seq<byte>)
    ensures WfName(n)
  {
    Build((if instance then [s.name] else []) + [s.kind, if s.tcp then TCP else UDP, LOCAL])
  }

  // A record with a name as mdns_read_rr_info leaves it.
  type Asking = rr: Rr | WfName(rr.name) witness Rr([0], 0, 0, false)

  predicate Asks(rr: Asking, rtype: u16) { rr.rtype == rtype || rr.rtype == TYPE_ANY }

  // check_host
  function CheckHost(h: Host, rr: Asking): set<Reply> {
    if rr.klass != CLASS_IN && rr.klass != CLASS_ANY then {}
    else
      (if Asks(rr, TYPE_PTR) && h.address != [0, 0, 0, 0] && DomainEq(rr.name, ReverseName(h.address)) then {HostPtr}
       else {})
      + (if DomainEq(rr.name, HostName(h)) && h.address != [0, 0, 0, 0] && Asks(rr, TYPE_A) then {HostA} else {})
  }

  // check_service
  function CheckService(s: Service, rr: Asking): set<Reply> {
    if rr.klass != CLASS_IN && rr.klass != CLASS_ANY then {}
    else
      (if DomainEq(rr.name, DnssdName()) && Asks(rr, TYPE_PTR) then {TypePtr} else {})
      + (if DomainEq(rr.name, ServiceName(s, false)) && Asks(rr, TYPE_PTR) then {NamePtr} else {})
      + (if DomainEq(rr.name, ServiceName(s, true)) && Asks(rr, TYPE_SRV) then {Srv} else {})
      + (if DomainEq(rr.name, ServiceName(s, true)) && Asks(rr, TYPE_TXT) then {Txt} else {})
  }

  // ----------------------------------------------------------- known answers

  // A known answer whose name was read.
  type Known = f: Found | WfName(f.rr.name) witness Found(Rr([0], 0, 0, false), 0, 0, 0)

  // mdns_readname at an offset yields this name.
  predicate NamedAt(p: seq<byte>, offset: u16, name: seq<byte>)
    requires |p| < 0x1_0000 && WfName(name)
  {
    var r := ReadName(p, offset);
    r.end != READNAME_ERROR && WfName(r.name) && DomainEq(r.name, name)
  }

  // pbuf_memcmp of the record's data with length bytes of ours
  predicate SameData(p: seq<byte>, f: Found, data: seq<byte>) {
    f.rdLength == |data| && f.rdOffset + f.rdLength <= |p| && p[f.rdOffset..f.rdOffset + f.rdLength] == data
  }

  predicate FieldIs(p: seq<byte>, offset: nat, n: u16) {
    offset + 2 <= |p| && FromBe16(p[offset..offset + 2]) == n
  }

  // The data of the record we would send for a reply.
  predicate DataIs(h: Host, s: Option<Service>, p: seq<byte>, f: Found, r: Reply)
    requires |p| < 0x1_0000
  {
    match r
    case HostA => SameData(p, f, h.address)
    case HostPtr => NamedAt(p, f.rdOffset, HostName(h))
    case TypePtr => s.Some? && NamedAt(p, f.rdOffset, ServiceName(s.value, false))
    case NamePtr => s.Some? && NamedAt(p, f.rdOffset, ServiceName(s.value, true))
    case Srv =>
      s.Some? && FieldIs(p, f.rdOffset, 0) && FieldIs(p, f.rdOffset + 2, 0) && FieldIs(p, f.rdOffset + 4, s.value.port)
      && NamedAt(p, U16(f.rdOffset + 6), HostName(h))
    case Txt => s.Some? && SameData(p, f, s.value.txt)
  }

  // The name and type of the record we would send for a reply.
  function TypeOf(r: Reply): u16 {
    match r
    case HostA => TYPE_A
    case HostPtr | TypePtr | NamePtr => TYPE_PTR
    case Srv => TYPE_SRV
    case Txt => TYPE_TXT
  }

  // Section 7.1: the querier knows this record, with more than half our lifetime left.
  predicate Knows(h: Host, s: Option<Service>, p: seq<byte>, f: Known, r: Reply)
    requires |p| < 0x1_0000
  {
    && f.rr.rtype == TypeOf(r) && f.rr.klass == CLASS_IN
    && (match r
        case HostA => DomainEq(f.rr.name, HostName(h))
        case HostPtr => DomainEq(f.rr.name, ReverseName(h.address))
        case TypePtr => DomainEq(f.rr.name, DnssdName())
        case NamePtr => s.Some? && DomainEq(f.rr.name, ServiceName(s.value, false))
        case _ => s.Some? && DomainEq(f.rr.name, ServiceName(s.value, true)))
    && DataIs(h, s, p, f, r)
    && f.ttl > (if r.HostA? || r.HostPtr? then h.ttl else if s.Some? then s.value.ttl else 0) / 2
  }
}
