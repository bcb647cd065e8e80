// mg_coap_compose and mg_coap_parse of packages/mongoose-v6.7/mongoose.c, with
// their buffers, pointers and option list, do what the functions of Coap say.
module CoapCodec {
  import opened Bytes
  import opened Coap
  import opened CoapOptions
  import opened Mbufs
  import opened Memory

  // ------------------------------------------------------------- composing

  // coap_get_ext_opt_size
  method ExtSize(value: nat) returns (size: nat)
    ensures value <= EXT_MAX ==> size == |Ext(value)|
  {
    size := 0;
    if value >= 13 && value <= 0xFF + 13 {
      size := 1;
    } else if value > 0xFF + 13 && value <= EXT_MAX {
      size := 2;
    }
  }

  // coap_calculate_packet_size: the message's first fault, or exactly its size.
  method PacketSize(m: Message) returns (status: Status, len: nat)
    ensures status == Verify(m) && (status == Done ==> len == |Compose(m)|)
    ensures status == Done <==> Valid(m)
  {
    hide OptionBytes, Writable, Ext, Valid;
    VerifyMeans(m);
    len := 4;
    if m.kind > 3 {
      return BadType, len;
    }
    if |m.token| > 8 {
      return BadToken, len;
    }
    if m.codeClass > 7 {
      return BadCodeClass, len;
    }
    if m.codeDetail > 31 {
      return BadCodeDetail, len;
    }
    len := len + |m.token|;
    if |m.payload| != 0 {
      len := len + |m.payload| + 1;
    }
    ghost var fixed := len;
    var i, prev: nat := 0, 0;
    assert m.options[0..] == m.options;
    while i < |m.options|
      invariant i <= |m.options| && (Writable(m.options, 0) <==> Writable(m.options[i..], prev))
      invariant i < |m.options| ==> prev <= m.options[i].number
      invariant Writable(m.options, 0) ==>
                  len + |OptionsBytes(m.options[i..], prev)| == fixed + |OptionsBytes(m.options, 0)|
    {
      var o := m.options[i];
      WritableStep(m.options, i, prev);
      var d := ExtSize(o.number - prev);
      var l := ExtSize(|o.value|);
      len := len + 1;
      len := len + d;
      len := len + l;
      if (i + 1 < |m.options| && o.number > m.options[i + 1].number)
         || |o.value| > EXT_MAX || o.number - prev > EXT_MAX
      {
        return BadOptions, len;
      }
      OptionSize(o.number - prev, o.value);
      len := len + |o.value|;
      prev := o.number;
      i := i + 1;
    }
    WritableNone(prev);
    assert m.options[i..] == [];
    return Done, len;
  }

  lemma WritableNone(prev: nat)
    ensures Writable([], prev) && OptionsBytes([], prev) == []
  {}

  lemma OptionSize(delta: nat, value: seq<byte>)
    requires delta <= EXT_MAX && |value| <= EXT_MAX
    ensures |OptionBytes(delta, value)| == 1 + |Ext(delta)| + |Ext(|value|)| + |value|
  {}

  lemma WritableStep(options: seq<Opt>, i: nat, prev: nat)
    requires i < |options|
    ensures var o, rest := options[i], options[i + 1..];
            && (Writable(options[i..], prev) <==>
                  prev <= o.number <= prev + EXT_MAX && |o.value| <= EXT_MAX && Writable(rest, o.number))
            && (Writable(options[i..], prev) ==>
                  OptionsBytes(options[i..], prev)
                  == OptionBytes(o.number - prev, o.value) + OptionsBytes(rest, o.number))
            && (i + 1 < |options| && o.number > options[i + 1].number ==> !Writable(rest, o.number))
  {
    assert options[i..][1..] == options[i + 1..];
  }

  // coap_split_opt
  method SplitOpt(value: nat) returns (base: byte, ext: u16, size: nat)
    requires value <= EXT_MAX
    ensures base == Nibble(value) && size == |Ext(value)| <= 2
    ensures Ext(value) == if size == 0 then [] else if size == 1 then [ext % 256] else Be16(ext)
  {
    base, ext, size := 0, 0, 0;
    if value < 13 {
      base := value;
    } else if value >= 13 && value <= 0xFF + 13 {
      base, ext, size := 13, value - 13, 1;
    } else if value > 0xFF + 13 && value <= EXT_MAX {
      base, ext, size := 14, value - 269, 2;
    }
  }

  // coap_add_opt_info
  method AddOptInfo(a: array<byte>, at: nat, val: u16, len: nat) returns (next: nat)
    requires at + len <= a.Length && len <= 2
    modifies a
    ensures next == at + len
    ensures a[..next] == old(a[..at]) + if len == 0 then [] else if len == 1 then [val % 256] else Be16(val)
  {
    next := at;
    if len == 1 {
      next := Put(a, next, [val % 256]);
    } else if len == 2 {
      next := Put(a, next, [val / 256]);
      next := Put(a, next, [val % 256]);
    }
  }

  // One turn of the loop over the options
  method WriteOption(a: array<byte>, at: nat, delta: nat, value: seq<byte>) returns (next: nat)
    requires delta <= EXT_MAX && |value| <= EXT_MAX && at + |OptionBytes(delta, value)| <= a.Length
    modifies a
    ensures next == at + |OptionBytes(delta, value)| && a[..next] == old(a[..at]) + OptionBytes(delta, value)
  {
    hide Nibble, Ext;
    ghost var before := a[..at];
    OptionSize(delta, value);
    var deltaBase, deltaExt, deltaLen := SplitOpt(delta);
    var lengthBase, lengthExt, lengthLen := SplitOpt(|value|);
    next := Put(a, at, [deltaBase * 16 + lengthBase]);
    next := AddOptInfo(a, next, deltaExt, deltaLen);
    next := AddOptInfo(a, next, lengthExt, lengthLen);
    if |value| != 0 {
      next := Put(a, next, value);
    }
    Regroup(before, [deltaBase * 16 + lengthBase], Ext(delta), Ext(|value|), value);
  }

  lemma Regroup(a: seq<byte>, b: seq<byte>, c: seq<byte>, d: seq<byte>, e: seq<byte>)
    ensures a + b + c + d + e == a + (b + c + d + e) && (e == [] ==> a + b + c + d == a + (b + c + d + e))
  {}

  lemma Assoc(a: seq<byte>, b: seq<byte>, c: seq<byte>)
    ensures a + b + c == a + (b + c)
  {}

  method WriteOptions(a: array<byte>, at: nat, options: seq<Opt>) returns (ptr: nat)
    requires Writable(options, 0) && at + |OptionsBytes(options, 0)| <= a.Length
    modifies a
    ensures ptr == at + |OptionsBytes(options, 0)| && a[..ptr] == old(a[..at]) + OptionsBytes(options, 0)
  {
    hide OptionBytes, Writable, OptionsBytes;
    ghost var whole := a[..at] + OptionsBytes(options, 0);
    ptr := at;
    var i, prev: nat := 0, 0;
    assert options[0..] == options;
    while i < |options|
      invariant i <= |options| && Writable(options[i..], prev) && ptr <= a.Length
      invariant a[..ptr] + OptionsBytes(options[i..], prev) == whole
    {
      WritableStep(options, i, prev);
      var o := options[i];
      Assoc(a[..ptr], OptionBytes(o.number - prev, o.value), OptionsBytes(options[i + 1..], o.number));
      ptr := WriteOption(a, ptr, o.number - prev, o.value);
      prev := o.number;
      i := i + 1;
    }
    WritableNone(prev);
    assert options[i..] == [] && a[..ptr] + [] == a[..ptr];
  }

  // mg_coap_compose appends to what the buffer holds, or does nothing.
  method ComposeInto(m: Message, io: Mbuf) returns (status: Status)
    requires io.Valid()
    modifies io, io.buf
    ensures status == Verify(m) && (status == Done <==> Valid(m)) && io.Valid()
    ensures io.Contents() == old(io.Contents()) + if status == Done then Compose(m) else []
  {
    hide OptionsBytes, Writable, Valid;
    ghost var was := io.Contents();
    var size;
    status, size := PacketSize(m);
    if status != Done {
      return;
    }
    var ptr := io.len;
    io.Extend(size);
    assert io.buf[..ptr] == io.Contents()[..ptr];
    ptr := WriteHead(m, io.buf, ptr);
    ptr := WriteOptions(io.buf, ptr, m.options);
    if |m.payload| != 0 {
      ptr := Put(io.buf, ptr, [MARKER]);
      ptr := Put(io.buf, ptr, m.payload);
    }
    RegroupAll(was, Header(m), m.token, OptionsBytes(m.options, 0), [MARKER], m.payload);
  }

  lemma RegroupAll(a: seq<byte>, h: seq<byte>, t: seq<byte>, o: seq<byte>, k: seq<byte>, p: seq<byte>)
    ensures a + (h + t) + o + k + p == a + (h + t + o + (k + p))
    ensures a + (h + t) + o == a + (h + t + o + [])
  {}

  // The header and the token
  method WriteHead(m: Message, a: array<byte>, at: nat) returns (ptr: nat)
    requires Verify(m) == Done && at + 4 + |m.token| <= a.Length
    modifies a
    ensures ptr == at + 4 + |m.token| && a[..ptr] == old(a[..at]) + (Header(m) + m.token)
  {
    ghost var was := a[..at];
    ptr := Put(a, at, [64 + m.kind * 16 + |m.token|]);
    ptr := Put(a, ptr, [m.codeClass * 32 + m.codeDetail]);
    ptr := AddOptInfo(a, ptr, m.id, 2);
    assert a[..ptr] == was + Header(m);
    if |m.token| != 0 {
      ptr := Put(a, ptr, m.token);
    }
    assert a[..ptr] == was + (Header(m) + m.token);
  }

  // --------------------------------------------------------------- parsing

  // coap_get_ext_opt; a size of -1 says that bytes are missing.
  method GetExtOpt(s: seq<byte>, at: nat, info: u16) returns (value: u16, size: int)
    ensures match GetExt(s, at, info)
            case Short => size == -1
            case Info(v, n) => value == v && size == n
  {
    value, size := info, 0;
    if info == 13 {
      if at < |s| {
        value, size := s[at] as int + 13, 1;
      } else {
        size := -1;
      }
    } else if info == 14 {
      if at + 1 < |s| {
        value, size := U16(s[at] as int * 256 + s[at + 1] + 269), 2;
      } else {
        size := -1;
      }
    }
  }

  // One turn of the loop of coap_get_options.  The program adds an option before
  // it finds its value cut off, and frees them all then.
  method ReadOption(s: seq<byte>, at: nat, prev: u16) returns (r: Step)
    requires at < |s|
    ensures r == NextOption(s, at, prev)
  {
    hide GetExt;
    var delta, length: u16 := s[at] / 16, s[at] % 16;
    if delta == 15 || length == 15 {
      return Bad(FormatError);
    }
    var ptr := at + 1;
    var size;
    delta, size := GetExtOpt(s, ptr, delta);
    if size == -1 {
      return Bad(NotEnoughData);
    }
    ptr := ptr + size;
    length, size := GetExtOpt(s, ptr, length);
    if size == -1 {
      return Bad(NotEnoughData);
    }
    ptr := ptr + size;
    if ptr + length > |s| {
      return Bad(NotEnoughData);
    }
    return Read(Opt(U16(delta + prev), s[ptr..ptr + length]), ptr + length);
  }

  // coap_get_options, with the options going to the list.
  method ReadOptions(s: seq<byte>, from: nat, list: OptionList) returns (status: Status, at: nat)
    requires from <= |s| && list.Valid() && list.nodes == []
    modifies list
    ensures list.Valid() && at <= |s|
    ensures Options(status, Values(list.nodes), at) == GetOptions(s, from, 0, [])
  {
    hide NextOption, Insert, Sorted;
    at, status := from, Done;
    var prev: u16 := 0;
    while at < |s| && s[at] != MARKER
      invariant from <= at <= |s| && list.Valid() && (forall i :: 0 <= i < |list.nodes| ==> fresh(list.nodes[i]))
      invariant GetOptions(s, at, prev, Values(list.nodes)) == GetOptions(s, from, 0, [])
      decreases |s| - at
    {
      var step := ReadOption(s, at, prev);
      if step.Bad? {
        list.Free();
        return step.status, at;
      }
      var o := list.Add(step.option.number, step.option.value);
      prev := step.option.number;
      at := step.next;
    }
  }

  // mg_coap_parse; the options are in the list.
  method ParseInto(s: seq<byte>, list: OptionList) returns (status: Status, m: Message)
    requires list.Valid() && list.nodes == []
    modifies list
    ensures list.Valid() && Parse(s) == Parsed(status, m.(options := Values(list.nodes)))
  {
    hide GetOptions;
    m := NOTHING;
    if |s| < 4 {
      return NotEnoughData, m;
    }
    if s[0] / 64 != 1 {
      return Ignore, m;
    }
    m := m.(kind := s[0] / 16 % 4);
    var tokenLen := s[0] % 16;
    if tokenLen > 8 {
      return FormatError, m;
    }
    m := m.(codeClass := s[1] / 32, codeDetail := s[1] % 32);
    m := m.(id := s[2] as int * 256 + s[3]);
    var ptr := 4;
    if tokenLen != 0 {
      if ptr + tokenLen > |s| {
        return NotEnoughData, m;
      }
      m := m.(token := s[ptr..ptr + tokenLen]);
      ptr := ptr + tokenLen;
    }
    assert m.token == s[4..ptr];
    status, ptr := ReadOptions(s, ptr, list);
    if status == Done && ptr != |s| {
      m := m.(payload := s[ptr + 1..]);
    }
  }
}
