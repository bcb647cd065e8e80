// CoAP messages as packages/mongoose-v6.7/mongoose.c composes and parses them
// (sections 3 and 3.1 of RFC 7252).
module Coap {
  import opened Bytes

  datatype Opt = Opt(number: u32, value: seq<byte>)

  datatype Message = Message(
    kind: byte, codeClass: byte, codeDetail: byte, id: u16, token: seq<byte>, options: seq<Opt>, payload: seq<byte>)

  // The error bits of the flags; the bits that name fields are not kept.
  datatype Status =
    | Done | NotEnoughData | FormatError | Ignore | BadType | BadToken | BadCodeClass | BadCodeDetail | BadOptions

  const MARKER: byte := 0xFF
  const EXT_MAX := 0xFFFF + 269

  // ------------------------------------------------------------- composing

  // What a delta or a length puts in its four bits, and behind the first byte.
  function Nibble(v: nat): (n: nat)
    ensures n <= 14
  {
    if v < 13 then v else if v <= 0xFF + 13 then 13 else 14
  }

  function Ext(v: nat): (s: seq<byte>)
    requires v <= EXT_MAX
    ensures |s| <= 2
  {
    if v < 13 then [] else if v <= 0xFF + 13 then [v - 13] else Be16(v - 269)
  }

  function OptionBytes(delta: nat, value: seq<byte>): (s: seq<byte>)
    requires delta <= EXT_MAX && |value| <= EXT_MAX
    ensures |s| > 0 && s[0] != MARKER
  {
    [Nibble(delta) * 16 + Nibble(|value|)] + Ext(delta) + Ext(|value|) + value
  }

  // Options in ascending order, with no delta or length too large to be written.
  predicate Writable(options: seq<Opt>, prev: nat) {
    options != [] ==>
      && prev <= options[0].number <= prev + EXT_MAX && |options[0].value| <= EXT_MAX
      && Writable(options[1..], options[0].number)
  }

  function OptionsBytes(options: seq<Opt>, prev: nat): seq<byte>
    requires Writable(options, prev)
  {
    if options == [] then []
    else OptionBytes(options[0].number - prev, options[0].value) + OptionsBytes(options[1..], options[0].number)
  }

  // The checks of coap_calculate_packet_size, in their order.
  function Verify(m: Message): Status {
    if m.kind > 3 then BadType else if |m.token| > 8 then BadToken else if m.codeClass > 7 then BadCodeClass
    else if m.codeDetail > 31 then BadCodeDetail else if !Writable(m.options, 0) then BadOptions else Done
  }

  // A step from the option before, and a value, that an extended field can tell
  predicate StepFits(o: Opt, prev: nat) {
    prev <= o.number && o.number - prev <= 65804 && |o.value| <= 65804
  }

  // The number of the option before
  function Before(options: seq<Opt>, prev: nat, i: nat): nat
    requires i <= |options|
  {
    if i == 0 then prev else options[i - 1].number
  }

  ghost predicate OptionsFit(options: seq<Opt>, prev: nat) {
    forall i :: 0 <= i < |options| ==> StepFits(options[i], Before(options, prev, i))
  }

  // A message that section 3 of RFC 7252 has room for
  ghost predicate Valid(m: Message) {
    m.kind <= 3 && |m.token| <= 8 && m.codeClass <= 7 && m.codeDetail <= 31 && OptionsFit(m.options, 0)
  }

  lemma {:induction false} WritableMeans(options: seq<Opt>, prev: nat)
    ensures Writable(options, prev) <==> OptionsFit(options, prev)
    decreases |options|
  {
    if options != [] {
      WritableMeans(options[1..], options[0].number);
      FitNext(options, prev);
    }
  }

  lemma FitNext(options: seq<Opt>, prev: nat)
    requires options != []
    ensures OptionsFit(options, prev) <==> StepFits(options[0], prev) && OptionsFit(options[1..], options[0].number)
  {
    hide StepFits;
    var rest, number := options[1..], options[0].number;
    if OptionsFit(options, prev) {
      assert StepFits(options[0], Before(options, prev, 0));
      forall i | 0 <= i < |rest| ensures StepFits(rest[i], Before(rest, number, i)) {
        assert StepFits(options[i + 1], Before(options, prev, i + 1));
      }
    }
    if StepFits(options[0], prev) && OptionsFit(rest, number) {
      forall i | 0 <= i < |options| ensures StepFits(options[i], Before(options, prev, i)) {
        if i > 0 {
          assert StepFits(rest[i - 1], Before(rest, number, i - 1));
        }
      }
    }
  }

  // Exactly the valid messages pass the checks; of any other the first fault is reported.
  lemma VerifyMeans(m: Message)
    ensures Verify(m) == Done <==> Valid(m)
    ensures Verify(m) == BadType <==> m.kind > 3
    ensures Verify(m) == BadToken <==> m.kind <= 3 && |m.token| > 8
    ensures Verify(m) == BadCodeClass <==> m.kind <= 3 && |m.token| <= 8 && m.codeClass > 7
    ensures Verify(m) == BadCodeDetail <==>
            m.kind <= 3 && |m.token| <= 8 && m.codeClass <= 7 && m.codeDetail > 31
    ensures Verify(m) == BadOptions <==>
            m.kind <= 3 && |m.token| <= 8 && m.codeClass <= 7 && m.codeDetail <= 31 && !OptionsFit(m.options, 0)
  {
    hide Writable, OptionsFit;
    WritableMeans(m.options, 0);
  }

  function Header(m: Message): (s: seq<byte>)
    requires Verify(m) == Done
    ensures |s| == 4
  {
    [64 + m.kind * 16 + |m.token|, m.codeClass * 32 + m.codeDetail] + Be16(m.id)
  }

  function PayloadBytes(payload: seq<byte>): seq<byte> {
    if payload == [] then [] else [MARKER] + payload
  }

  function Compose(m: Message): seq<byte>
    requires Verify(m) == Done
  {
    Header(m) + m.token + OptionsBytes(m.options, 0) + PayloadBytes(m.payload)
  }

  // --------------------------------------------------------------- parsing

  // coap_get_ext_opt; the sum is kept in 16 bits.
  datatype Info = Info(value: u16, size: nat) | Short

  function GetExt(s: seq<byte>, at: nat, info: u16): (i: Info)
    ensures i.Info? && at <= |s| ==> at + i.size <= |s|
  {
    if info == 13 then (if at < |s| then Info(s[at] as int + 13, 1) else Short)
    else if info == 14 then (if at + 1 < |s| then Info(U16(s[at] as int * 256 + s[at + 1] + 269), 2) else Short)
    else Info(info, 0)
  }

  // mg_coap_add_option: behind every option whose number is not greater.
  function Insert(options: seq<Opt>, o: Opt): seq<Opt> {
    if options == [] || options[0].number > o.number then [o] + options else [options[0]] + Insert(options[1..], o)
  }

  // One option, or the reason why it is none.
  datatype Step = Read(option: Opt, next: nat) | Bad(status: Status)

  function NextOption(s: seq<byte>, at: nat, prev: u16): (r: Step)
    requires at < |s|
    ensures r.Bad? ==> r.status == FormatError || r.status == NotEnoughData
    ensures r.Read? ==> at < r.next <= |s| && r.option.number <= 0xFFFF && |r.option.value| <= 0xFFFF
  {
    if s[at] / 16 == 15 || s[at] % 16 == 15 then Bad(FormatError)
    else
      var delta := GetExt(s, at + 1, s[at] / 16);
      if delta.Short? then Bad(NotEnoughData)
      else
        var length := GetExt(s, at + 1 + delta.size, s[at] % 16);
        if length.Short? then Bad(NotEnoughData)
        else
          var start := at + 1 + delta.size + length.size;
          if start + length.value > |s| then Bad(NotEnoughData)
          else Read(Opt(U16(delta.value + prev), s[start..start + length.value]), start + length.value)
  }

  datatype Options = Options(status: Status, options: seq<Opt>, at: nat)

  // coap_get_options
  function GetOptions(s: seq<byte>, at: nat, prev: u16, got: seq<Opt>): (r: Options)
    requires at <= |s|
    ensures at <= r.at <= |s| && (r.status != Done ==> r.options == [])
    decreases |s| - at
  {
    if at == |s| || s[at] == MARKER then Options(Done, got, at)
    else
      match NextOption(s, at, prev)
      case Bad(status) => Options(status, [], at)
      case Read(o, next) => GetOptions(s, next, o.number, Insert(got, o))
  }

  datatype Parsed = Parsed(status: Status, message: Message)

  const NOTHING := Message(0, 0, 0, 0, [], [], [])

  // mg_coap_parse
  function Parse(s: seq<byte>): Parsed {
    if |s| < 4 then Parsed(NotEnoughData, NOTHING)
    else if s[0] / 64 != 1 then Parsed(Ignore, NOTHING)
    else
      var m := NOTHING.(kind := s[0] / 16 % 4);
      var tokenLen := s[0] % 16;
      if tokenLen > 8 then Parsed(FormatError, m)
      else
        var m := m.(codeClass := s[1] / 32, codeDetail := s[1] % 32, id := s[2] as int * 256 + s[3]);
        if 4 + tokenLen > |s| then Parsed(NotEnoughData, m)
        else
          var m := m.(token := s[4..4 + tokenLen]);
          var o := GetOptions(s, 4 + tokenLen, 0, []);
          if o.status != Done then Parsed(o.status, m)
          else Parsed(Done, m.(options := o.options, payload := if o.at == |s| then [] else s[o.at + 1..]))
  }

  // ------------------------------------------------------------ round trip

  ghost predicate Stands(s: seq<byte>, at: nat, t: seq<byte>) {
    at + |t| <= |s| && forall k :: 0 <= k < |t| ==> s[at + k] == t[k]
  }

  lemma Splits(s: seq<byte>, at: nat, a: seq<byte>, b: seq<byte>)
    requires Stands(s, at, a + b)
    ensures Stands(s, at, a) && Stands(s, at + |a|, b)
  {
    assert forall k :: 0 <= k < |a| ==> (a + b)[k] == a[k];
    assert forall k :: 0 <= k < |b| ==> (a + b)[|a| + k] == b[k];
    forall k | 0 <= k < |b| ensures s[at + |a| + k] == b[k] {
      assert s[at + (|a| + k)] == (a + b)[|a| + k];
    }
  }

  // A delta or length up to 65535 comes back.
  lemma ExtReads(s: seq<byte>, at: nat, v: nat)
    requires v <= 0xFFFF && Stands(s, at, Ext(v))
    ensures GetExt(s, at, Nibble(v)) == Info(v, |Ext(v)|)
  {
    if v > 0xFF + 13 {
      assert s[at] == Ext(v)[0] && s[at + 1] == Ext(v)[1];
    } else if v >= 13 {
      assert s[at] == Ext(v)[0];
    }
  }

  lemma OptionReads(s: seq<byte>, at: nat, prev: u16, o: Opt)
    requires prev <= o.number <= 0xFFFF && |o.value| <= 0xFFFF && Stands(s, at, OptionBytes(o.number - prev, o.value))
    ensures s[at] != MARKER && NextOption(s, at, prev) == Read(o, at + |OptionBytes(o.number - prev, o.value)|)
  {
    hide Ext, GetExt, Nibble;
    var delta, n := o.number - prev, |o.value|;
    var first := Nibble(delta) * 16 + Nibble(n);
    Splits(s, at, [first] + Ext(delta) + Ext(n), o.value);
    Splits(s, at, [first] + Ext(delta), Ext(n));
    Splits(s, at, [first], Ext(delta));
    assert s[at] == [first][0] && first / 16 == Nibble(delta) && first % 16 == Nibble(n);
    ExtReads(s, at + 1, delta);
    ExtReads(s, at + 1 + |Ext(delta)|, n);
    var start := at + 1 + |Ext(delta)| + |Ext(n)|;
    assert s[start..start + n] == o.value;
    assert Opt(o.number, s[start..start + n]) == o;
  }

  // No option of the list has a number greater than n.
  predicate AtMost(options: seq<Opt>, n: nat) {
    forall i :: 0 <= i < |options| ==> options[i].number <= n
  }

  lemma {:induction false} InsertLast(options: seq<Opt>, o: Opt)
    requires AtMost(options, o.number)
    ensures Insert(options, o) == options + [o]
    decreases |options|
  {
    if options != [] {
      InsertLast(options[1..], o);
    }
  }

  // What 16 bits can hold, and the parser can therefore return.
  predicate Small(options: seq<Opt>) {
    forall i :: 0 <= i < |options| ==> options[i].number <= 0xFFFF && |options[i].value| <= 0xFFFF
  }

  lemma {:induction false} OptionsRead(s: seq<byte>, at: nat, prev: u16, options: seq<Opt>, got: seq<Opt>)
    requires Writable(options, prev) && Small(options) && AtMost(got, prev)
    requires Stands(s, at, OptionsBytes(options, prev))
    requires var end := at + |OptionsBytes(options, prev)|; end == |s| || s[end] == MARKER
    ensures GetOptions(s, at, prev, got) == Options(Done, got + options, at + |OptionsBytes(options, prev)|)
    decreases |options|
  {
    hide OptionBytes, Insert, NextOption, Stands;
    if options != [] {
      var o := options[0];
      var head, rest := OptionBytes(o.number - prev, o.value), OptionsBytes(options[1..], o.number);
      Splits(s, at, head, rest);
      OptionReads(s, at, prev, o);
      InsertLast(got, o);
      OptionsRead(s, at + |head|, o.number, options[1..], got + [o]);
      assert got + [o] + options[1..] == got + options;
    }
  }

  // The fixed fields at the start of a message
  lemma HeaderReads(m: Message)
    requires Verify(m) == Done
    ensures var h := Header(m);
            && h[0] / 64 == 1 && h[0] / 16 % 4 == m.kind && h[0] % 16 == |m.token|
            && h[1] / 32 == m.codeClass && h[1] % 32 == m.codeDetail && h[2] as int * 256 + h[3] == m.id
  {}

  // The parser returns no other options.
  lemma {:induction false} GetsSmall(s: seq<byte>, at: nat, prev: u16, got: seq<Opt>)
    requires at <= |s| && Small(got)
    ensures Small(GetOptions(s, at, prev, got).options)
    decreases |s| - at
  {
    hide NextOption;
    if at < |s| && s[at] != MARKER {
      match NextOption(s, at, prev)
      case Bad(_) =>
      case Read(o, next) =>
        InsertSmall(got, o);
        GetsSmall(s, next, o.number, Insert(got, o));
    }
  }

  lemma {:induction false} InsertSmall(options: seq<Opt>, o: Opt)
    requires Small(options) && o.number <= 0xFFFF && |o.value| <= 0xFFFF
    ensures Small(Insert(options, o))
    decreases |options|
  {
    if options != [] && options[0].number <= o.number {
      InsertSmall(options[1..], o);
    }
  }

  // A valid message is composed, and comes back from its bytes exactly when no
  // option number and no option length needs more than 16 bits.
  lemma ParseCompose(m: Message)
    requires Valid(m)
    ensures Verify(m) == Done && (Parse(Compose(m)) == Parsed(Done, m) <==> Small(m.options))
  {
    hide Writable, OptionsBytes, Valid;
    VerifyMeans(m);
    var s := Compose(m);
    if Small(m.options) {
      ComposedParses(m);
    } else {
      hide GetOptions;
      SmallParsed(s);
    }
  }

  // A message with option 65536 passes every check, and option 0 is read back.
  lemma LargeOptionLost(kind: byte, id: u16)
    requires kind <= 3
    ensures var m := Message(kind, 0, 0, id, [], [Opt(65536, [])], []);
            && Verify(m) == Done && !Small(m.options)
            && Parse(Compose(m)).message.options == [Opt(0, [])] && Parse(Compose(m)) != Parsed(Done, m)
  {
    hide GetOptions, OptionBytes, Header;
    var m := Message(kind, 0, 0, id, [], [Opt(65536, [])], []);
    var h := Header(m);
    LargeOptionBytes();
    assert m.options[1..] == [];
    assert Compose(m) == h + LARGE_OPTION;
    HeaderReads(m);
    LargeOptionReads(h);
  }

  const LARGE_OPTION: seq<byte> := [14 * 16, 254, 243]

  lemma LargeOptionBytes()
    ensures OptionBytes(65536, []) == LARGE_OPTION
  {
    assert Be16(65536 - 269) == [254, 243];
  }

  lemma LargeOptionReads(h: seq<byte>)
    requires |h| == 4
    ensures GetOptions(h + LARGE_OPTION, 4, 0, []) == Options(Done, [Opt(0, [])], 7)
  {
    var s := h + LARGE_OPTION;
    assert s[4] == 14 * 16 && s[5] == 254 && s[6] == 243;
    assert s[7..7] == [];
    assert NextOption(s, 4, 0) == Read(Opt(0, []), 7);
    assert Insert([], Opt(0, [])) == [Opt(0, [])];
  }

  lemma SmallParsed(s: seq<byte>)
    ensures Small(Parse(s).message.options)
  {
    hide GetOptions, Insert;
    if |s| >= 4 && s[0] % 16 <= 8 && 4 + s[0] % 16 <= |s| {
      GetsSmall(s, 4 + s[0] % 16, 0, []);
    }
  }

  lemma ComposedParses(m: Message)
    requires Verify(m) == Done && Small(m.options)
    ensures Parse(Compose(m)) == Parsed(Done, m)
  {
    hide Writable, OptionsBytes, GetOptions, Small, Stands, Header;
    var s, h, o, p := Compose(m), Header(m), OptionsBytes(m.options, 0), PayloadBytes(m.payload);
    HeaderReads(m);
    Layout(h, m.token, o, p);
    OptionsRead(s, 4 + |m.token|, 0, m.options, []);
    assert [] + m.options == m.options;
  }

  lemma Layout(h: seq<byte>, t: seq<byte>, o: seq<byte>, p: seq<byte>)
    requires |h| == 4
    ensures var s, i, j := h + t + o + p, 4 + |t|, 4 + |t| + |o|;
            && (forall k :: 0 <= k < 4 ==> s[k] == h[k]) && s[4..i] == t && Stands(s, i, o) && s[j..] == p
            && |s| == j + |p| && (p != [] ==> s[j] == p[0] && s[j + 1..] == p[1..])
  {
    var s := h + t + o + p;
    assert forall k :: 0 <= k < |o| ==> s[4 + |t| + k] == o[k];
  }
}
