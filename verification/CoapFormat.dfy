// The message format of sections 3 and 3.1 of RFC 7252, field by field: what
// packages/mongoose-v6.7/mongoose.c composes has it.
module CoapFormat {
  import opened Bytes
  import opened Coap

  // ------------------------------------------------------- what the RFC says

  // A delta or a length: in its four bits, or behind them in one or two octets
  ghost predicate Extends(nibble: nat, ext: seq<byte>, v: nat) {
    || (nibble <= 12 && |ext| == 0 && v == nibble)
    || (nibble == 13 && |ext| == 1 && v == 13 + ext[0] as int)
    || (nibble == 14 && |ext| == 2 && v == 269 + 256 * ext[0] as int + ext[1])
  }

  // One option, with n octets of extended delta and k of extended length
  ghost predicate IsOption(s: seq<byte>, n: nat, k: nat, delta: nat, value: seq<byte>) {
    && 1 + n + k <= |s|
    && Extends(s[0] / 16, s[1..1 + n], delta) && Extends(s[0] % 16, s[1 + n..1 + n + k], |value|)
    && s[1 + n + k..] == value
  }

  // The first size octets of s are one option.
  ghost predicate StartsWithOption(s: seq<byte>, size: nat, n: nat, k: nat, delta: nat, value: seq<byte>) {
    0 < size <= |s| && IsOption(s[..size], n, k, delta, value)
  }

  // Options one after the other, each with its distance from the one before
  ghost predicate AreOptions(s: seq<byte>, prev: nat, options: seq<Opt>)
    decreases |options|
  {
    if options == [] then s == []
    else
      && prev <= options[0].number
      && var delta: nat, value := options[0].number - prev, options[0].value;
         exists size: nat, n: nat, k: nat ::
           StartsWithOption(s, size, n, k, delta, value) && AreOptions(s[size..], options[0].number, options[1..])
  }

  // The whole message: version 1, type, token length, code, message ID, token, options, payload;
  // end is where the options end.
  ghost predicate IsMessage(s: seq<byte>, m: Message, end: nat) {
    && 4 + |m.token| <= end <= |s|
    && s[0] / 64 == 1 && s[0] / 16 % 4 == m.kind && s[0] % 16 == |m.token|
    && s[1] / 32 == m.codeClass && s[1] % 32 == m.codeDetail
    && s[2] == m.id / 256 && s[3] == m.id % 256
    && s[4..4 + |m.token|] == m.token
    && AreOptions(s[4 + |m.token|..end], 0, m.options)
    && if m.payload == [] then end == |s| else end < |s| && s[end] == 0xFF && s[end + 1..] == m.payload
  }

  // --------------------------------------------------------- what is composed

  lemma ExtExtends(v: nat)
    requires v <= EXT_MAX
    ensures Extends(Nibble(v), Ext(v), v)
  {}

  lemma OptionIs(delta: nat, value: seq<byte>)
    requires delta <= EXT_MAX && |value| <= EXT_MAX
    ensures IsOption(OptionBytes(delta, value), |Ext(delta)|, |Ext(|value|)|, delta, value)
  {
    hide Ext, Nibble, Extends;
    ExtExtends(delta);
    ExtExtends(|value|);
    var a, b := Ext(delta), Ext(|value|);
    var s := OptionBytes(delta, value);
    Parts([s[0]], a, b, value);
    assert s[0] / 16 == Nibble(delta) && s[0] % 16 == Nibble(|value|);
  }

  lemma Parts(h: seq<byte>, a: seq<byte>, b: seq<byte>, c: seq<byte>)
    ensures var s, i, j := h + a + b + c, |h| + |a|, |h| + |a| + |b|;
            s[|h|..i] == a && s[i..j] == b && s[j..] == c
  {}

  lemma {:induction false} OptionsAre(options: seq<Opt>, prev: nat)
    requires Writable(options, prev)
    ensures AreOptions(OptionsBytes(options, prev), prev, options)
    decreases |options|
  {
    hide OptionBytes, IsOption;
    if options != [] {
      var delta, value := options[0].number - prev, options[0].value;
      var head, rest := OptionBytes(delta, value), OptionsBytes(options[1..], options[0].number);
      OptionIs(delta, value);
      OptionsAre(options[1..], options[0].number);
      assert (head + rest)[..|head|] == head && (head + rest)[|head|..] == rest;
      assert StartsWithOption(head + rest, |head|, |Ext(delta)|, |Ext(|value|)|, delta, value);
    }
  }

  // Every valid message is composed in this format.
  lemma ComposeIsMessage(m: Message)
    requires Valid(m)
    ensures Verify(m) == Done
    ensures IsMessage(Compose(m), m, 4 + |m.token| + |OptionsBytes(m.options, 0)|)
  {
    hide Writable, OptionsBytes, AreOptions, Header, Valid;
    VerifyMeans(m);
    HeaderReads(m);
    HeaderIs(m);
    VerifiedOptions(m);
    var h, o, p := Header(m), OptionsBytes(m.options, 0), PayloadBytes(m.payload);
    OptionsAre(m.options, 0);
    Layout(h, m.token, o, p);
    OptionsStand(h, m.token, o, p);
  }

  lemma VerifiedOptions(m: Message)
    requires Verify(m) == Done
    ensures Writable(m.options, 0)
  {}

  lemma HeaderIs(m: Message)
    requires Verify(m) == Done
    ensures Header(m)[2] == m.id / 256 && Header(m)[3] == m.id % 256
  {}

  lemma OptionsStand(h: seq<byte>, t: seq<byte>, o: seq<byte>, p: seq<byte>)
    ensures var s, i := h + t + o + p, |h| + |t|; s[i..i + |o|] == o
  {}

  // ------------------------------------ the example of figure 16 of RFC 7252

  lemma TemperatureExample()
    ensures var ask := Message(0, 0, 1, 0x7d34, [], [Opt(11, Ascii("temperature"))], []);
            Verify(ask) == Done && Compose(ask) == [0x40, 0x01, 0x7d, 0x34, 0xbb] + Ascii("temperature")
    ensures var tell := Message(2, 2, 5, 0x7d34, [], [], Ascii("22.3 C"));
            Verify(tell) == Done && Compose(tell) == [0x60, 0x45, 0x7d, 0x34, 0xff] + Ascii("22.3 C")
  {
    hide Ascii;
    var t := Ascii("temperature");
    var ask := Message(0, 0, 1, 0x7d34, [], [Opt(11, t)], []);
    assert OptionBytes(11, t) == [0xbb] + t;
    assert ask.options[1..] == [];
    assert Writable(ask.options[1..], 11) && Writable(ask.options, 0);
    assert OptionsBytes(ask.options, 0) == [0xbb] + t;
    assert Be16(0x7d34) == [0x7d, 0x34];
    assert Header(ask) == [0x40, 0x01, 0x7d, 0x34];
    var tell := Message(2, 2, 5, 0x7d34, [], [], Ascii("22.3 C"));
    assert Header(tell) == [0x60, 0x45, 0x7d, 0x34];
  }
}
