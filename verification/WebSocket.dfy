// WebSocket frames as packages/mongoose-v6.7/mongoose.c writes and reads them
// (sections 5.2 and 5.3 of RFC 6455), for frames that need no reassembly.
module WebSocket {
  import opened Bytes

  // -------------------------------------------------------------- exclusive or

  function XorBits(a: nat, b: nat, n: nat): nat {
    if n == 0 then 0 else 2 * XorBits(a / 2, b / 2, n - 1) + (a + b) % 2
  }

  lemma {:induction false} XorBound(a: nat, b: nat, n: nat, bound: nat)
    requires bound == Two(n)
    ensures XorBits(a, b, n) < bound
    decreases n
  {
    if n > 0 {
      XorBound(a / 2, b / 2, n - 1, Two(n - 1));
    }
  }

  function Two(n: nat): nat { if n == 0 then 1 else 2 * Two(n - 1) }

  // a ^ b
  function Xor(a: byte, b: byte): byte {
    XorBound(a, b, 8, 256);
    XorBits(a, b, 8)
  }

  lemma {:induction false} XorTwice(a: nat, b: nat, n: nat)
    requires a < Two(n)
    ensures XorBits(XorBits(a, b, n), b, n) == a
    decreases n
  {
    if n > 0 {
      var x := XorBits(a / 2, b / 2, n - 1);
      Halves(a, b, x);
      XorTwice(a / 2, b / 2, n - 1);
    }
  }

  lemma Halves(a: nat, b: nat, x: nat)
    ensures var r := 2 * x + (a + b) % 2; r / 2 == x && (r + b) % 2 == a % 2
  {
    var q := (a + b) / 2;
    assert a + b == 2 * q + (a + b) % 2;
    assert 2 * x + (a + b) % 2 + b == a + 2 * (x + b - q);
  }

  type Mask = s: seq<byte> | |s| == 4 witness [0, 0, 0, 0]

  // Each byte with the mask byte of its place.
  function Masked(data: seq<byte>, mask: Mask): (r: seq<byte>)
    ensures |r| == |data|
  {
    seq(|data|, i requires 0 <= i < |data| => Xor(data[i], mask[i % 4]))
  }

  lemma MaskedTwice(data: seq<byte>, mask: Mask)
    ensures Masked(Masked(data, mask), mask) == data
  {
    hide Xor;
    var once := Masked(data, mask);
    forall i | 0 <= i < |data| ensures Masked(once, mask)[i] == data[i] {
      XorBack(data[i], mask[i % 4]);
    }
  }

  lemma XorBack(a: byte, b: byte)
    ensures Xor(Xor(a, b), b) == a
  {
    XorTwice(a, b, 8);
  }

  // ------------------------------------------------------------------ frames

  datatype Frame = Frame(first: byte, payload: seq<byte>)

  const SIZE_MAX := 0x1_0000_0000_0000_0000

  // The longest payload of section 5.2 of RFC 6455
  const PAYLOAD_MAX := 0x7FFF_FFFF_FFFF_FFFF

  type Sendable = f: Frame | |f.payload| < SIZE_MAX witness Frame(0, [])

  function SizeBytes(n: nat, masked: bool): (s: seq<byte>)
    requires n < SIZE_MAX
  {
    var flag := if masked then 128 else 0;
    if n < 126 then [flag + n]
    else if n < 65535 then [flag + 126] + Be16(n)
    else [flag + 127] + Be32(n / 0x1_0000_0000) + Be32(n % 0x1_0000_0000)
  }

  // A frame on the wire; a client masks, a server does not.
  function Wire(f: Sendable, mask: Option<Mask>): seq<byte> {
    [f.first] + SizeBytes(|f.payload|, mask.Some?)
    + match mask { case None => f.payload case Some(m) => m + Masked(f.payload, m) }
  }

  // ----------------------------------------------------------------- reading

  datatype Head = Head(headerLen: nat, dataLen: nat, masked: bool)

  // The size fields at the start of s; no header while they are incomplete.
  function ReadHead(s: seq<byte>): (h: Head)
    ensures h.headerLen > 0 ==> h.headerLen >= (if h.masked then 6 else 2)
    ensures if h.headerLen > 0 then |s| >= 2 else h.dataLen == 0
  {
    if |s| < 2 then Head(0, 0, false)
    else
      var len, masked := s[1] % 128, s[1] >= 128;
      var maskLen := if masked then 4 else 0;
      if len < 126 && |s| >= maskLen then Head(2 + maskLen, len, masked)
      else if len == 126 && |s| >= 4 + maskLen then Head(4 + maskLen, s[2] as int * 256 + s[3], masked)
      else if |s| >= 10 + maskLen then
        Head(10 + maskLen, FromBe32(s[2..6]) * 0x1_0000_0000 + FromBe32(s[6..10]), masked)
      else Head(0, 0, masked)
  }

  predicate Complete(s: seq<byte>) {
    var h := ReadHead(s);
    h.headerLen + h.dataLen > 0 && h.headerLen + h.dataLen <= |s|
  }

  function FrameLen(s: seq<byte>): (n: nat)
    requires Complete(s)
    ensures 0 < n <= |s|
  {
    ReadHead(s).headerLen + ReadHead(s).dataLen
  }

  function FirstFrame(s: seq<byte>): Frame
    requires Complete(s)
  {
    var h := ReadHead(s);
    var data := s[h.headerLen..h.headerLen + h.dataLen];
    Frame(s[0], if h.masked then Masked(data, s[h.headerLen - 4..h.headerLen]) else data)
  }

  // ------------------------------------------- sums in the program's own width

  // frame_len, a uint64_t
  function FrameSum(s: seq<byte>): nat {
    (ReadHead(s).headerLen + ReadHead(s).dataLen) % SIZE_MAX
  }

  // The program takes a frame for complete.
  predicate Accepts(s: seq<byte>) {
    0 < FrameSum(s) <= |s|
  }

  // The length does not go round to a small number.
  predicate Sound(s: seq<byte>) {
    ReadHead(s).headerLen + ReadHead(s).dataLen <= SIZE_MAX
  }

  // Exactly then the program takes for complete what is complete, and the frame it takes is there.
  lemma AcceptsExactly(s: seq<byte>)
    requires |s| < SIZE_MAX
    ensures Sound(s) <==> (Accepts(s) <==> Complete(s))
    ensures Sound(s) && Complete(s) ==> FrameSum(s) == FrameLen(s)
  {
    hide FromBe32;
    HeadBounds(s);
  }

  lemma HeadBounds(s: seq<byte>)
    ensures ReadHead(s).headerLen <= 14 && ReadHead(s).dataLen < SIZE_MAX
    ensures ReadHead(s).dataLen > 0xFFFF ==> ReadHead(s).headerLen <= |s|
  {}

  // Section 5.2 of RFC 6455: the most significant bit of a length is 0.
  lemma LengthsSound(s: seq<byte>)
    requires ReadHead(s).dataLen < 0x8000_0000_0000_0000
    ensures Sound(s)
  {
    hide ReadHead;
    HeadBounds(s);
  }

  // Ten bytes announce 2^64 - 9 more; the program takes the first byte for a frame.
  lemma WrappedFrame()
    ensures var s := [0x82, 127] + Be32(0xFFFF_FFFF) + Be32(0xFFFF_FFF7);
            FrameSum(s) == 1 && Accepts(s) && !Complete(s) && !Sound(s)
  {
    var s := [0x82, 127] + Be32(0xFFFF_FFFF) + Be32(0xFFFF_FFF7);
    assert s[2..6] == Be32(0xFFFF_FFFF) && s[6..10] == Be32(0xFFFF_FFF7);
    Be32RoundTrip(0xFFFF_FFFF);
    Be32RoundTrip(0xFFFF_FFF7);
  }

  // Every frame of a stream is sound.
  predicate Steady(s: seq<byte>)
    decreases |s|
  {
    Sound(s) && (Complete(s) ==> Steady(s[FrameLen(s)..]))
  }

  // Everything a stream delivers, and what it leaves behind.
  datatype Delivery = Delivery(frames: seq<Frame>, rest: seq<byte>)

  function Deliver(s: seq<byte>): (d: Delivery)
    ensures |d.rest| <= |s| && !Complete(d.rest)
    decreases |s|
  {
    if !Complete(s) then Delivery([], s)
    else
      var d := Deliver(s[FrameLen(s)..]);
      Delivery([FirstFrame(s)] + d.frames, d.rest)
  }

  // ------------------------------------------------- any cut into segments

  // A complete frame stays what it is, whatever comes behind it.
  lemma FrameStays(s: seq<byte>, t: seq<byte>)
    requires Complete(s)
    ensures Complete(s + t) && FrameLen(s + t) == FrameLen(s) && FirstFrame(s + t) == FirstFrame(s)
  {
    hide Masked, FromBe32;
    HeadStays(s, t);
    var h := ReadHead(s);
    assert (s + t)[h.headerLen..h.headerLen + h.dataLen] == s[h.headerLen..h.headerLen + h.dataLen];
    if h.masked {
      assert (s + t)[h.headerLen - 4..h.headerLen] == s[h.headerLen - 4..h.headerLen];
    }
  }

  lemma HeadStays(s: seq<byte>, t: seq<byte>)
    requires ReadHead(s).headerLen > 0
    ensures ReadHead(s + t) == ReadHead(s)
  {
    hide FromBe32;
    if |s| >= 10 {
      assert (s + t)[2..6] == s[2..6] && (s + t)[6..10] == s[6..10];
    }
  }

  lemma SoundPrefix(s: seq<byte>, t: seq<byte>)
    requires Sound(s + t)
    ensures Sound(s)
  {
    hide ReadHead;
    NoHead(s);
    if ReadHead(s).headerLen > 0 {
      HeadStays(s, t);
    }
  }

  lemma NoHead(s: seq<byte>)
    ensures ReadHead(s).headerLen == 0 ==> ReadHead(s).dataLen == 0
  {}

  // What came first is steady, and so is what it leaves with what comes behind it.
  lemma {:induction false} SteadyParts(s: seq<byte>, t: seq<byte>)
    requires Steady(s + t)
    ensures Steady(s) && Steady(Deliver(s).rest + t)
    decreases |s|
  {
    hide Complete, FirstFrame, FrameLen, Sound;
    SoundPrefix(s, t);
    if Complete(s) {
      FrameStays(s, t);
      assert (s + t)[FrameLen(s)..] == s[FrameLen(s)..] + t;
      SteadyParts(s[FrameLen(s)..], t);
    }
  }

  // More bytes only add to what was delivered before; where no frame length wraps in the whole
  // stream, none does in either part.
  lemma DeliverInParts(s: seq<byte>, t: seq<byte>)
    requires Steady(s + t)
    ensures var a, b := Deliver(s), Deliver(Deliver(s).rest + t);
            Steady(s) && Steady(a.rest + t) && Deliver(s + t) == Delivery(a.frames + b.frames, b.rest)
  {
    hide Steady, Deliver;
    SteadyParts(s, t);
    DeliverMore(s, t);
  }

  lemma {:induction false} DeliverMore(s: seq<byte>, t: seq<byte>)
    ensures var a, b := Deliver(s), Deliver(Deliver(s).rest + t);
            Deliver(s + t) == Delivery(a.frames + b.frames, b.rest)
    decreases |s|
  {
    hide Complete, FirstFrame, FrameLen;
    if Complete(s) {
      FrameStays(s, t);
      var n := FrameLen(s);
      assert (s + t)[n..] == s[n..] + t;
      DeliverMore(s[n..], t);
      var a, b := Deliver(s[n..]), Deliver(Deliver(s[n..]).rest + t);
      assert [FirstFrame(s)] + (a.frames + b.frames) == [FirstFrame(s)] + a.frames + b.frames;
    }
  }

  // ------------------------------------------------------------ round trip

  lemma SizeReads(first: byte, n: nat, masked: bool, t: seq<byte>)
    requires n < SIZE_MAX && (masked ==> |t| >= 4)
    ensures var h := SizeBytes(n, masked);
            ReadHead([first] + h + t) == Head(1 + |h| + (if masked then 4 else 0), n, masked)
  {
    var h, s := SizeBytes(n, masked), [first] + SizeBytes(n, masked) + t;
    assert s[1] == h[0];
    if 126 <= n < 65535 {
      assert s[2] == h[1] && s[3] == h[2];
    } else if n >= 65535 {
      var high, low := n / 0x1_0000_0000, n % 0x1_0000_0000;
      assert s[2..6] == Be32(high) && s[6..10] == Be32(low);
      Be32RoundTrip(high);
      Be32RoundTrip(low);
    }
  }

  // A frame on the wire is read for what it is, whatever comes behind it.
  lemma WireReads(f: Sendable, mask: Option<Mask>, t: seq<byte>)
    ensures var s := Wire(f, mask) + t;
            Complete(s) && FrameLen(s) == |Wire(f, mask)| && FirstFrame(s) == f && s[FrameLen(s)..] == t
  {
    hide SizeBytes, ReadHead, Masked;
    var n := |f.payload|;
    var h := SizeBytes(n, mask.Some?);
    var body := match mask { case None => f.payload case Some(m) => m + Masked(f.payload, m) };
    var s := Wire(f, mask) + t;
    assert s == [f.first] + h + (body + t);
    SizeReads(f.first, n, mask.Some?, body + t);
    if mask.Some? {
      MaskedTwice(f.payload, mask.value);
      Pieces([f.first] + h, mask.value, Masked(f.payload, mask.value), t);
    } else {
      Pieces([f.first] + h, [], f.payload, t);
    }
  }

  lemma WireSound(f: Sendable, mask: Option<Mask>, t: seq<byte>)
    requires |f.payload| <= PAYLOAD_MAX
    ensures Sound(Wire(f, mask) + t)
  {
    hide SizeBytes, ReadHead, Masked, Sound;
    var h := SizeBytes(|f.payload|, mask.Some?);
    var body := match mask { case None => f.payload case Some(m) => m + Masked(f.payload, m) };
    assert Wire(f, mask) + t == [f.first] + h + (body + t);
    SizeReads(f.first, |f.payload|, mask.Some?, body + t);
    LengthsSound(Wire(f, mask) + t);
  }

  lemma Pieces(h: seq<byte>, m: seq<byte>, p: seq<byte>, t: seq<byte>)
    requires |h| > 0
    ensures var s := h + (m + p + t); var i, j := |h| + |m|, |h| + |m| + |p|;
            s[0] == h[0] && s[i - |m|..i] == m && s[i..j] == p && s[j..] == t && m + p + t == (m + p) + t
    ensures m == [] ==> h + (p + t) == h + (m + p + t)
  {
    if m == [] {
      assert m + p == p;
    }
  }

  // The frames a peer sends, each masked or not.
  function Stream(frames: seq<Sendable>, masks: seq<Option<Mask>>): seq<byte>
    requires |masks| == |frames|
  {
    if frames == [] then [] else Wire(frames[0], masks[0]) + Stream(frames[1..], masks[1..])
  }

  lemma {:induction false} StreamSteady(frames: seq<Sendable>, masks: seq<Option<Mask>>)
    requires |masks| == |frames| && forall i :: 0 <= i < |frames| ==> |frames[i].payload| <= PAYLOAD_MAX
    ensures Steady(Stream(frames, masks))
    decreases |frames|
  {
    hide Complete, FrameLen, FirstFrame, Wire, Sound;
    if frames == [] {
      EmptySound();
    } else {
      WireReads(frames[0], masks[0], Stream(frames[1..], masks[1..]));
      WireSound(frames[0], masks[0], Stream(frames[1..], masks[1..]));
      StreamSteady(frames[1..], masks[1..]);
    }
  }

  lemma EmptySound()
    ensures Sound([]) && !Complete([])
  {}

  // Any first part of a stream delivers the frames it holds completely, in order;
  // what it leaves behind is the start of the next frame and less than all of it.
  lemma {:induction false} PrefixDelivers(frames: seq<Sendable>, masks: seq<Option<Mask>>, n: nat) returns (k: nat)
    requires |masks| == |frames| && n <= |Stream(frames, masks)|
    ensures k <= |frames|
    ensures Deliver(Stream(frames, masks)[..n]).frames == frames[..k]
    ensures Deliver(Stream(frames, masks)[..n]).rest <= Stream(frames[k..], masks[k..])
    ensures k < |frames| ==> |Deliver(Stream(frames, masks)[..n]).rest| < |Wire(frames[k], masks[k])|
    ensures n == |Stream(frames, masks)| ==> k == |frames|
    decreases |frames|
  {
    hide Complete, FirstFrame, FrameLen, Wire;
    var s := Stream(frames, masks);
    if frames == [] {
      k := 0;
      NothingComplete();
    } else {
      var head, rest := Wire(frames[0], masks[0]), Stream(frames[1..], masks[1..]);
      if n < |head| {
        k := 0;
        NotYet(frames[0], masks[0], n);
        assert s[..n] == head[..n] && frames[0..] == frames && masks[0..] == masks;
      } else {
        k := PrefixDelivers(frames[1..], masks[1..], n - |head|);
        WireReads(frames[0], masks[0], rest[..n - |head|]);
        assert s[..n] == head + rest[..n - |head|];
        assert frames[1..][k..] == frames[k + 1..] && masks[1..][k..] == masks[k + 1..];
        k := k + 1;
        assert frames[..k] == [frames[0]] + frames[1..][..k - 1];
      }
    }
  }

  lemma NothingComplete()
    ensures !Complete([])
  {}

  // Part of a frame is no complete frame.
  lemma NotYet(f: Sendable, mask: Option<Mask>, n: nat)
    requires n < |Wire(f, mask)|
    ensures !Complete(Wire(f, mask)[..n])
  {
    hide Complete, FirstFrame, FrameLen, Wire;
    var w := Wire(f, mask);
    WireReads(f, mask, []);
    assert w + [] == w && w[..n] + w[n..] == w;
    if Complete(w[..n]) {
      FrameStays(w[..n], w[n..]);
    }
  }
}
