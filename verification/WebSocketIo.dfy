// mg_send_websocket_frame, mg_deliver_websocket_data and the loop of
// mg_ws_handler in packages/mongoose-v6.7/mongoose.c, over their buffers.
module WebSocketIo {
  import opened Bytes
  import opened Mbufs
  import opened WebSocket
  import opened WebSocketFormat

  // --------------------------------------------------------------- sending

  const DONT_FIN := 0x100

  // The FIN bit and the opcode
  function FirstByte(op: nat): byte {
    (if op / DONT_FIN % 2 == 1 then 0 else 0x80) + op % 16
  }

  // The opcode in the low four bits, FIN in the highest unless the flag says otherwise, and the
  // reserved bits zero (section 5.2 of RFC 6455); a frame without FIN and one of opcode 0 are
  // fragments.
  lemma FirstByteMeans(op: nat)
    ensures var first := FirstByte(op);
            && first % 16 == op % 16 && (first / 128 == 1 <==> op / 256 % 2 == 0) && first / 16 % 8 == 0
            && (IsFragment(first) <==> op / 256 % 2 == 1 || op % 16 == 0)
  {}

  // mg_is_ws_fragment
  predicate IsFragment(first: byte) {
    first < 0x80 || first % 16 == 0
  }

  // mg_send_websocket_frame.  The mask works on what is appended
  // behind a position, which is zero when there is no mask.
  method SendFrame(io: Mbuf, op: nat, data: seq<byte>, mask: Option<Mask>)
    requires io.Valid() && |data| < SIZE_MAX
    modifies io, io.buf
    ensures io.Valid() && io.Contents() == old(io.Contents()) + Wire(Frame(FirstByte(op), data), mask)
    ensures |old(io.Contents())| <= io.len
    ensures IsFrame(io.Contents()[|old(io.Contents())|..], FormOf(|data|), mask, Frame(FirstByte(op), data))
    ensures io.buf == old(io.buf) || fresh(io.buf)
  {
    hide Masked, IsFrame;
    WireIsFrame(Frame(FirstByte(op), data), mask);
    ghost var was := io.Contents();
    var first := FirstByte(op);
    var header := SizeHeader(first, |data|, mask.Some?);
    io.Append(header);
    var pos := 0;
    if mask.Some? {
      io.Append(mask.value);
      pos := io.len;
    }
    ghost var before := io.Contents();
    io.Append(data);
    if pos != 0 {
      MaskFrame(io, pos, mask.value);
      assert before == was + header + mask.value;
      Regroup(was, header, mask.value, Masked(data, mask.value));
    } else {
      Regroup(was, header, [], data);
    }
  }

  lemma Regroup(a: seq<byte>, b: seq<byte>, c: seq<byte>, d: seq<byte>)
    ensures a + b + c + d == a + (b + (c + d)) && (c == [] ==> a + b + d == a + (b + d))
  {}

  method SizeHeader(first: byte, len: nat, masked: bool) returns (header: seq<byte>)
    requires len < SIZE_MAX
    ensures header == [first] + SizeBytes(len, masked)
  {
    var flag: byte := if masked then 128 else 0;
    if len < 126 {
      header := [first, flag + len];
    } else if len < 65535 {
      header := [first, flag + 126] + Be16(len);
    } else {
      header := [first, flag + 127] + Be32(len / 0x1_0000_0000) + Be32(len % 0x1_0000_0000);
      assert header == [first] + SizeBytes(len, masked);
    }
  }

  // mg_ws_mask_frame
  method MaskFrame(io: Mbuf, pos: nat, mask: Mask)
    requires io.Valid() && pos <= io.len
    modifies io.buf
    ensures io.Valid() && io.Contents() == old(io.Contents()[..pos] + Masked(io.Contents()[pos..], mask))
  {
    XorAt(io.buf, pos, io.len, mask);
    assert io.buf[..io.len] == io.buf[..pos] + io.buf[pos..io.len];
    assert old(io.buf[..])[pos..io.len] == old(io.Contents())[pos..];
  }

  // The bytes from pos up to end, each with its mask byte.
  method XorAt(a: array<byte>, pos: nat, end: nat, mask: Mask)
    requires pos <= end <= a.Length
    modifies a
    ensures a[..pos] == old(a[..pos]) && a[pos..end] == Masked(old(a[..])[pos..end], mask) && a[end..] == old(a[end..])
    ensures Unmasks(old(a[..])[pos..end], mask, a[pos..end])
  {
    hide Xor, Unmasks;
    ghost var was := a[..];
    for i := 0 to end - pos
      invariant forall k :: 0 <= k < a.Length && !(pos <= k < pos + i) ==> a[k] == was[k]
      invariant forall k :: 0 <= k < i ==> a[pos + k] == Xor(was[pos + k], mask[k % 4])
    {
      a[pos + i] := Xor(a[pos + i], mask[i % 4]);
    }
    var m := Masked(was[pos..end], mask);
    forall k | 0 <= k < end - pos ensures a[pos + k] == m[k] {
      assert m[k] == Xor(was[pos..end][k], mask[k % 4]);
    }
    MaskedMeans(was[pos..end], mask, a[pos..end]);
  }

  // -------------------------------------------------------------- receiving

  method ReadSizes(s: seq<byte>) returns (h: Head)
    ensures h == ReadHead(s)
  {
    if |s| < 2 {
      return Head(0, 0, false);
    }
    var len, masked := s[1] % 128, s[1] >= 128;
    var maskLen := if masked then 4 else 0;
    var dataLen, headerLen: nat := 0, 0;
    if len < 126 && |s| >= maskLen {
      dataLen := len;
      headerLen := 2 + maskLen;
    } else if len == 126 && |s| >= 4 + maskLen {
      headerLen := 4 + maskLen;
      dataLen := s[2] as int * 256 + s[3];
    } else if |s| >= 10 + maskLen {
      headerLen := 10 + maskLen;
      dataLen := FromBe32(s[2..6]) * 0x1_0000_0000 + FromBe32(s[6..10]);
    }
    return Head(headerLen, dataLen, masked);
  }

  lemma SameSlices(a: seq<byte>, n: nat)
    requires n <= |a|
    ensures forall i, j :: 0 <= i <= j <= n ==> a[..n][i..j] == a[i..j]
  {}

  // mg_deliver_websocket_data where no reassembly takes place: a complete frame
  // is unmasked where it lies, handed over and removed.
  method DeliverOne(io: Mbuf, noDefrag: bool) returns (ok: bool, frame: Frame)
    requires io.Valid() && (noDefrag || io.len == 0 || !IsFragment(io.buf[0]))
    requires io.len < SIZE_MAX && Sound(io.Contents())
    modifies io`len, io.buf
    ensures io.Valid() && ok == Complete(old(io.Contents()))
    ensures ok ==>
              && frame == FirstFrame(old(io.Contents()))
              && io.Contents() == old(io.Contents()[FrameLen(io.Contents())..])
    ensures ok ==> StartsWith(old(io.Contents()), old(io.len) - io.len, frame)
    ensures !ok ==> io.Contents() == old(io.Contents()) && forall n: nat, f :: !StartsWith(io.Contents(), n, f)
  {
    hide Complete, FrameLen, FirstFrame, Sound, StartsWith;
    ghost var was := io.Contents();
    var h := ReadSizes(io.buf[..io.len]);
    AcceptsExactly(io.Contents());
    var frameLen := (h.headerLen + h.dataLen) % SIZE_MAX;
    ok := frameLen > 0 && frameLen <= io.len;
    frame := Frame(0, []);
    if ok {
      frame := TakeFrame(io, h, frameLen);
      FirstIsFrame(was);
    } else {
      NoFrame(was);
    }
  }

  // The frame of this head is unmasked, handed over and removed.
  method TakeFrame(io: Mbuf, h: Head, frameLen: nat) returns (frame: Frame)
    requires io.Valid() && Complete(io.Contents())
    requires h == ReadHead(io.Contents()) && frameLen == FrameLen(io.Contents())
    modifies io`len, io.buf
    ensures io.Valid() && frame == FirstFrame(old(io.Contents()))
    ensures io.Contents() == old(io.Contents()[FrameLen(io.Contents())..])
  {
    hide Masked, ReadHead;
    ghost var was := io.Contents();
    var first := io.buf[0];
    ghost var whole := io.buf[..];
    SameSlices(whole, io.len);
    assert was[h.headerLen..frameLen] == whole[h.headerLen..frameLen] == io.buf[h.headerLen..frameLen];
    if h.masked {
      ghost var from := h.headerLen - 4;
      assert was[from..h.headerLen] == whole[from..h.headerLen] == io.buf[from..h.headerLen];
      XorAt(io.buf, h.headerLen, frameLen, io.buf[h.headerLen - 4..h.headerLen]);
    }
    frame := Frame(first, io.buf[h.headerLen..frameLen]);
    assert io.Contents()[frameLen..] == io.buf[frameLen..][..io.len - frameLen] == was[frameLen..];
    io.Remove(frameLen);
  }

  // The loop of mg_ws_handler after bytes have been received.
  method OnReceive(io: Mbuf, noDefrag: bool) returns (frames: seq<Frame>)
    requires io.Valid() && (noDefrag || Unfragmented(io.Contents()))
    requires io.len < SIZE_MAX && Steady(io.Contents())
    modifies io`len, io.buf
    ensures io.Valid() && Delivery(frames, io.Contents()) == Deliver(old(io.Contents()))
    ensures Splits(old(io.Contents()), frames, io.Contents())
  {
    hide Splits, StartsWith;
    hide Complete, FirstFrame, FrameLen, Sound, IsFragment, Unfragmented, Steady, Deliver;
    DeliverSplits(io.Contents());
    frames := [];
    var ok := true;
    while ok
      invariant io.Valid() && (noDefrag || Unfragmented(io.Contents()))
      invariant io.len < SIZE_MAX && Steady(io.Contents())
      invariant Deliver(old(io.Contents())) ==
                Delivery(frames + Deliver(io.Contents()).frames, Deliver(io.Contents()).rest)
      invariant !ok ==> !Complete(io.Contents())
      decreases io.len, ok
    {
      ghost var now := io.Contents();
      UnfragmentedFirst(now);
      SteadyFirst(now);
      DeliverFirst(now);
      var frame;
      ok, frame := DeliverOne(io, noDefrag);
      if ok {
        ghost var d := Deliver(io.Contents());
        assert frames + ([frame] + d.frames) == frames + [frame] + d.frames;
        frames := frames + [frame];
      }
    }
    DeliverFirst(io.Contents());
    assert frames + [] == frames;
  }

  // Every frame a stream holds is one that needs no reassembly.
  predicate Unfragmented(s: seq<byte>)
    decreases |s|
  {
    s == [] || (!IsFragment(s[0]) && (Complete(s) ==> Unfragmented(s[FrameLen(s)..])))
  }

  lemma DeliverFirst(s: seq<byte>)
    ensures Deliver(s) ==
            if !Complete(s) then Delivery([], s)
            else
              var d := Deliver(s[FrameLen(s)..]);
              Delivery([FirstFrame(s)] + d.frames, d.rest)
  {
    hide Complete, FrameLen, FirstFrame;
  }

  lemma SteadyFirst(s: seq<byte>)
    requires Steady(s)
    ensures Sound(s) && (Complete(s) ==> Steady(s[FrameLen(s)..]))
  {
    hide Sound, Complete, FrameLen;
  }

  lemma UnfragmentedFirst(s: seq<byte>)
    ensures Unfragmented(s) && s != [] ==> !IsFragment(s[0])
    ensures Unfragmented(s) && Complete(s) ==> Unfragmented(s[FrameLen(s)..])
  {}

  lemma {:induction false} UnfragmentedPrefix(s: seq<byte>, t: seq<byte>)
    requires Unfragmented(s + t)
    ensures Unfragmented(s)
    decreases |s|
  {
    hide Complete, FrameLen, FirstFrame;
    if s != [] && Complete(s) {
      FrameStays(s, t);
      assert (s + t)[FrameLen(s)..] == s[FrameLen(s)..] + t;
      UnfragmentedPrefix(s[FrameLen(s)..], t);
    }
  }

  lemma {:induction false} UnfragmentedRest(s: seq<byte>, t: seq<byte>)
    requires Unfragmented(s + t)
    ensures Unfragmented(Deliver(s).rest + t)
    decreases |s|
  {
    hide Complete, FrameLen, FirstFrame;
    if Complete(s) {
      FrameStays(s, t);
      assert (s + t)[FrameLen(s)..] == s[FrameLen(s)..] + t;
      UnfragmentedFirst(s + t);
      UnfragmentedRest(s[FrameLen(s)..], t);
    }
  }

  // What a peer sends that sets FIN and an opcode on every frame needs no reassembly.
  lemma {:induction false} StreamUnfragmented(frames: seq<Sendable>, masks: seq<Option<Mask>>)
    requires |masks| == |frames| && forall i :: 0 <= i < |frames| ==> !IsFragment(frames[i].first)
    ensures Unfragmented(Stream(frames, masks))
    decreases |frames|
  {
    hide Complete, FrameLen, FirstFrame, Wire;
    if frames != [] {
      var rest := Stream(frames[1..], masks[1..]);
      WireReads(frames[0], masks[0], rest);
      WireFirst(frames[0], masks[0]);
      StreamUnfragmented(frames[1..], masks[1..]);
    }
  }

  lemma WireFirst(f: Sendable, mask: Option<Mask>)
    ensures Wire(f, mask) != [] && Wire(f, mask)[0] == f.first
  {}

  // Whatever segments a stream arrives in, its frames are delivered in order, and
  // what is left over is what an undivided stream would leave.
  method Receive(segments: seq<seq<byte>>, noDefrag: bool) returns (io: Mbuf, frames: seq<Frame>)
    requires noDefrag || Unfragmented(Flat(segments))
    requires |Flat(segments)| < SIZE_MAX && Steady(Flat(segments))
    ensures io.Valid() && Delivery(frames, io.Contents()) == Deliver(Flat(segments))
    ensures Splits(Flat(segments), frames, io.Contents())
  {
    hide Splits, StartsWith;
    hide Complete, FrameLen, FirstFrame, Deliver, Unfragmented, Steady;
    io := new Mbuf(0);
    frames := [];
    ghost var all := Flat(segments);
    assert segments[0..] == segments && [] + all == all;
    NothingComplete();
    JoinNothing(Deliver(all));
    for k := 0 to |segments|
      invariant io.Valid() && fresh(io) && fresh(io.buf) && !Complete(io.Contents())
      invariant noDefrag || Unfragmented(io.Contents() + Flat(segments[k..]))
      invariant |io.Contents() + Flat(segments[k..])| < SIZE_MAX && Steady(io.Contents() + Flat(segments[k..]))
      invariant Deliver(all) == Join(frames, Deliver(io.Contents() + Flat(segments[k..])))
    {
      ghost var rest := Flat(segments[k + 1..]);
      assert segments[k..][1..] == segments[k + 1..];
      assert io.Contents() + (segments[k] + rest) == io.Contents() + segments[k] + rest;
      io.Append(segments[k]);
      ghost var now := io.Contents();
      if !noDefrag {
        UnfragmentedPrefix(now, rest);
        UnfragmentedRest(now, rest);
      }
      DeliverInParts(now, rest);
      var got := OnReceive(io, noDefrag);
      JoinTwice(frames, got, Deliver(io.Contents() + rest));
      frames := frames + got;
    }
    assert segments[|segments|..] == [] && io.Contents() + [] == io.Contents();
    DeliverNothing(io.Contents());
    DeliverSplits(all);
  }

  // The first n bytes of what a peer sent, in any segments: its complete frames
  // come out as they were sent, and only a part of the next one is kept.
  method ReceiveSent(segments: seq<seq<byte>>, ghost sent: seq<Sendable>, ghost masks: seq<Option<Mask>>, ghost n: nat)
    returns (io: Mbuf, frames: seq<Frame>, ghost k: nat)
    requires |masks| == |sent| && (forall i :: 0 <= i < |sent| ==> !IsFragment(sent[i].first))
    requires n < SIZE_MAX && forall i :: 0 <= i < |sent| ==> |sent[i].payload| <= PAYLOAD_MAX
    requires n <= |Stream(sent, masks)| && Flat(segments) == Stream(sent, masks)[..n]
    ensures io.Valid() && k <= |sent| && frames == sent[..k] && io.Contents() <= Stream(sent[k..], masks[k..])
    ensures k < |sent| ==> io.len < |Wire(sent[k], masks[k])|
    ensures n == |Stream(sent, masks)| ==> k == |sent| && io.len == 0
  {
    hide Deliver, Unfragmented, Steady, Wire, IsFragment;
    ghost var s := Stream(sent, masks);
    StreamUnfragmented(sent, masks);
    assert s[..n] + s[n..] == s;
    UnfragmentedPrefix(s[..n], s[n..]);
    StreamSteady(sent, masks);
    SteadyParts(s[..n], s[n..]);
    io, frames := Receive(segments, false);
    k := PrefixDelivers(sent, masks, n);
  }

  function Join(frames: seq<Frame>, d: Delivery): Delivery { Delivery(frames + d.frames, d.rest) }

  lemma JoinNothing(d: Delivery)
    ensures Join([], d) == d
  {}

  lemma JoinTwice(a: seq<Frame>, b: seq<Frame>, d: Delivery)
    ensures Join(a, Join(b, d)) == Join(a + b, d)
  {
    assert a + (b + d.frames) == a + b + d.frames;
  }

  lemma DeliverNothing(s: seq<byte>)
    requires !Complete(s)
    ensures Deliver(s) == Delivery([], s) && forall frames :: Join(frames, Deliver(s)) == Delivery(frames, s)
  {}
}
