// The layout of a frame and the work of the mask as sections 5.2 and 5.3 of
// RFC 6455 say it, bit by bit: what packages/mongoose-v6.7/mongoose.c sends has
// this layout, and what has this layout is read for what it is.
module WebSocketFormat {
  import opened Bytes
  import opened WebSocket

  // ------------------------------------------------------- what the RFC says

  // Bit j of a number, counted from the lowest
  function Bit(x: nat, j: nat): nat {
    if j == 0 then x % 2 else Bit(x / 2, j - 1)
  }

  // Each bit of z tells whether those of x and y differ.
  ghost predicate Differs(x: byte, y: byte, z: byte) {
    forall j :: 0 <= j < 8 ==> (Bit(z, j) == 1 <==> Bit(x, j) != Bit(y, j))
  }

  // Octet i of the one is octet i of the other exclusive or octet i MOD 4 of the key.
  ghost predicate Unmasks(data: seq<byte>, key: Mask, plain: seq<byte>) {
    |plain| == |data| && forall i :: 0 <= i < |data| ==> Differs(data[i], key[i % 4], plain[i])
  }

  datatype Form = Short | Medium | Long

  // The second octet and the extended length, the highest octet first
  ghost predicate HasLength(s: seq<byte>, form: Form, masked: bool, n: nat) {
    var flag := if masked then 128 else 0;
    match form
    case Short => |s| == 2 && n <= 125 && s[1] == flag + n
    case Medium => |s| == 4 && n < 0x1_0000 && s[1] == flag + 126 && s[2] == n / 0x100 && s[3] == n % 0x100
    case Long =>
      && |s| == 10 && n < 0x1_0000_0000_0000_0000 && s[1] == flag + 127
      && s[2] == n / 0x100_0000_0000_0000 && s[3] == n / 0x1_0000_0000_0000 % 0x100
      && s[4] == n / 0x100_0000_0000 % 0x100 && s[5] == n / 0x1_0000_0000 % 0x100
      && s[6] == n / 0x100_0000 % 0x100 && s[7] == n / 0x1_0000 % 0x100
      && s[8] == n / 0x100 % 0x100 && s[9] == n % 0x100
  }

  function HeadLength(form: Form): nat {
    match form case Short => 2 case Medium => 4 case Long => 10
  }

  // The octets s are one frame with this first octet, key and payload.
  ghost predicate IsFrame(s: seq<byte>, form: Form, key: Option<Mask>, f: Frame) {
    var h := HeadLength(form);
    && h <= |s| && s[0] == f.first && HasLength(s[..h], form, key.Some?, |f.payload|)
    && match key
       case None => s[h..] == f.payload
       case Some(k) => h + 4 <= |s| && s[h..h + 4] == k && Unmasks(s[h + 4..], k, f.payload)
  }

  // ------------------------------------------------------------ the mask

  lemma {:induction false} XorBit(a: nat, b: nat, n: nat, j: nat)
    requires j < n
    ensures Bit(XorBits(a, b, n), j) == (Bit(a, j) + Bit(b, j)) % 2
    decreases n
  {
    var x := XorBits(a / 2, b / 2, n - 1);
    if j > 0 {
      XorBit(a / 2, b / 2, n - 1, j - 1);
      HalfOf(x, (a + b) % 2);
    } else {
      HalfOf(x, (a + b) % 2);
      LastBits(a, b);
    }
  }

  lemma HalfOf(x: nat, r: nat)
    requires r < 2
    ensures (2 * x + r) / 2 == x && (2 * x + r) % 2 == r
  {}

  lemma LastBits(a: nat, b: nat)
    ensures (a + b) % 2 == (a % 2 + b % 2) % 2
  {}

  lemma BitRange(x: nat, j: nat)
    ensures Bit(x, j) == 0 || Bit(x, j) == 1
  {}

  lemma XorDiffers(x: byte, y: byte)
    ensures Differs(x, y, Xor(x, y))
  {
    forall j | 0 <= j < 8 ensures Bit(Xor(x, y), j) == 1 <==> Bit(x, j) != Bit(y, j) {
      XorBit(x, y, 8, j);
      BitRange(x, j);
      BitRange(y, j);
    }
  }

  lemma {:induction false} BitsDetermine(x: nat, y: nat, n: nat)
    requires x < Two(n) && y < Two(n) && forall j :: 0 <= j < n ==> Bit(x, j) == Bit(y, j)
    ensures x == y
    decreases n
  {
    if n > 0 {
      assert Bit(x, 0) == Bit(y, 0);
      forall j | 0 <= j < n - 1 ensures Bit(x / 2, j) == Bit(y / 2, j) {
        assert Bit(x, j + 1) == Bit(y, j + 1);
      }
      BitsDetermine(x / 2, y / 2, n - 1);
    }
  }

  // Nothing else differs so.
  lemma DiffersIsXor(x: byte, y: byte, z: byte)
    requires Differs(x, y, z)
    ensures z == Xor(x, y)
  {
    hide Xor;
    XorDiffers(x, y);
    var z' := Xor(x, y);
    forall j | 0 <= j < 8 ensures Bit(z, j) == Bit(z', j) {
      BitRange(z, j);
      BitRange(z', j);
    }
    assert Two(8) == 256;
    BitsDetermine(z, z', 8);
  }

  // The program's loop does what section 5.3 says, and nothing else does.
  lemma MaskedMeans(data: seq<byte>, key: Mask, plain: seq<byte>)
    ensures plain == Masked(data, key) <==> Unmasks(data, key, plain)
  {
    hide Xor, Differs;
    var m := Masked(data, key);
    forall i | 0 <= i < |data| ensures Differs(data[i], key[i % 4], m[i]) {
      XorDiffers(data[i], key[i % 4]);
    }
    if Unmasks(data, key, plain) {
      forall i | 0 <= i < |data| ensures plain[i] == m[i] {
        DiffersIsXor(data[i], key[i % 4], plain[i]);
      }
    }
  }

  // ---------------------------------------------------------- the length

  function FormOf(n: nat): Form {
    if n < 126 then Short else if n < 65535 then Medium else Long
  }

  lemma SizeHasLength(first: byte, n: nat, masked: bool)
    requires n < SIZE_MAX
    ensures HasLength([first] + SizeBytes(n, masked), FormOf(n), masked, n)
  {
    if n >= 65535 {
      LongLength(first, n, masked);
    }
  }

  lemma LongLength(first: byte, n: nat, masked: bool)
    requires 65535 <= n < SIZE_MAX
    ensures HasLength([first] + SizeBytes(n, masked), Long, masked, n)
  {
    hide Be32;
    WordOctets(n);
    Be32Octets(n / 0x1_0000_0000);
    Be32Octets(n % 0x1_0000_0000);
  }

  lemma Be32Octets(w: u32)
    ensures Be32(w) == [w / 0x100_0000, w / 0x1_0000 % 0x100, w % 0x1_0000 / 0x100, w % 0x100]
  {
    assert w / 0x1_0000 / 0x100 == w / 0x100_0000;
  }

  lemma WordOctets(n: nat)
    requires n < SIZE_MAX
    ensures var high, low := n / 0x1_0000_0000, n % 0x1_0000_0000;
            && high / 0x100_0000 == n / 0x100_0000_0000_0000
            && high / 0x1_0000 % 0x100 == n / 0x1_0000_0000_0000 % 0x100
            && high % 0x1_0000 / 0x100 == n / 0x100_0000_0000 % 0x100 && high % 0x100 == n / 0x1_0000_0000 % 0x100
            && low / 0x100_0000 == n / 0x100_0000 % 0x100 && low / 0x1_0000 % 0x100 == n / 0x1_0000 % 0x100
            && low % 0x1_0000 / 0x100 == n / 0x100 % 0x100 && low % 0x100 == n % 0x100
  {
    var high, low := n / 0x1_0000_0000, n % 0x1_0000_0000;
    HighWord(n);
    LowWord(high, low);
    MiddleOctet(high);
    MiddleOctet(low);
    assert n == high * 0x1_0000_0000 + low;
  }

  lemma MiddleOctet(w: nat)
    ensures w % 0x1_0000 / 0x100 == w / 0x100 % 0x100
  {}

  lemma HighWord(n: nat)
    ensures n / 0x1_0000_0000 / 0x100 == n / 0x100_0000_0000
    ensures n / 0x1_0000_0000 / 0x1_0000 == n / 0x1_0000_0000_0000
    ensures n / 0x1_0000_0000 / 0x100_0000 == n / 0x100_0000_0000_0000
  {}

  lemma LowWord(high: nat, low: nat)
    requires low < 0x1_0000_0000
    ensures var n := high * 0x1_0000_0000 + low;
            && n / 0x100_0000 % 0x100 == low / 0x100_0000 && n / 0x1_0000 % 0x100 == low / 0x1_0000 % 0x100
            && n / 0x100 % 0x100 == low / 0x100 % 0x100 && n % 0x100 == low % 0x100
  {
    var n := high * 0x1_0000_0000 + low;
    assert n / 0x100_0000 == high * 0x100 + low / 0x100_0000;
    assert n / 0x1_0000 == high * 0x1_0000 + low / 0x1_0000;
    assert n / 0x100 == high * 0x100_0000 + low / 0x100;
    Remainder(high, low / 0x100_0000);
    Remainder(high * 0x100, low / 0x1_0000);
    Remainder(high * 0x1_0000, low / 0x100);
    Remainder(high * 0x100_0000, low);
  }

  lemma Remainder(a: nat, b: nat)
    ensures (a * 0x100 + b) % 0x100 == b % 0x100
  {}

  // ------------------------------------------------------ what is written

  // A frame that is sent has the shortest form but one: 65535 bytes take the longest.
  lemma WireIsFrame(f: Sendable, mask: Option<Mask>)
    ensures IsFrame(Wire(f, mask), FormOf(|f.payload|), mask, f)
  {
    hide Masked, Unmasks, SizeBytes, HasLength;
    var n := |f.payload|;
    var head := [f.first] + SizeBytes(n, mask.Some?);
    SizeHasLength(f.first, n, mask.Some?);
    HeadFits(head, FormOf(n), mask.Some?, n);
    var w := Wire(f, mask);
    match mask
    case None =>
      assert w == head + f.payload;
    case Some(k) =>
      var data := Masked(f.payload, k);
      MaskedTwice(f.payload, k);
      MaskedMeans(data, k, f.payload);
      assert w == head + (k + data) == head + k + data;
      assert w[|head| + 4..] == data && w[|head|..|head| + 4] == k;
  }

  lemma HeadFits(head: seq<byte>, form: Form, masked: bool, n: nat)
    requires HasLength(head, form, masked, n)
    ensures |head| == HeadLength(form)
  {}

  // --------------------------------------------------------- what is read

  // The octets that are taken for a frame are that frame, in the form their second octet names.
  lemma ReadIsFrame(s: seq<byte>) returns (form: Form, key: Option<Mask>)
    requires Complete(s)
    ensures FrameLen(s) <= |s| && IsFrame(s[..FrameLen(s)], form, key, FirstFrame(s))
  {
    hide Masked, Unmasks, HasLength, FromBe32;
    var h := ReadHead(s);
    var n, w, f := FrameLen(s), s[..FrameLen(s)], FirstFrame(s);
    form := if s[1] % 128 < 126 then Short else if s[1] % 128 == 126 then Medium else Long;
    key := None;
    LengthRead(s, form);
    var head := HeadLength(form);
    assert w[..head] == s[..head];
    if h.masked {
      var k := s[head..head + 4];
      key := Some(k);
      var data := s[h.headerLen..n];
      MaskedMeans(data, k, f.payload);
      SliceOfPrefix(s, n, head, head + 4);
      assert w[head + 4..] == data;
    } else {
      assert w[head..] == s[head..n];
    }
  }

  lemma SliceOfPrefix(s: seq<byte>, n: nat, i: nat, j: nat)
    requires i <= j <= n <= |s|
    ensures s[..n][i..j] == s[i..j]
  {}

  lemma LengthRead(s: seq<byte>, form: Form)
    requires Complete(s) && |s| >= 2
    requires form == if s[1] % 128 < 126 then Short else if s[1] % 128 == 126 then Medium else Long
    ensures var h := ReadHead(s); var head := HeadLength(form);
            && h.headerLen == head + (if h.masked then 4 else 0) && h.headerLen + h.dataLen <= |s|
            && head <= |s| && HasLength(s[..head], form, h.masked, h.dataLen)
  {
    if form.Long? {
      LongRead(s);
    }
  }

  lemma LongRead(s: seq<byte>)
    requires Complete(s) && |s| >= 2 && s[1] % 128 == 127
    ensures var h := ReadHead(s);
            && h.headerLen == 10 + (if h.masked then 4 else 0)
            && |s| >= 10 && HasLength(s[..10], Long, h.masked, h.dataLen)
  {
    hide FromBe32;
    var a: int, b: int := FromBe32(s[2..6]), FromBe32(s[6..10]);
    WordRead(s[2..6]);
    WordRead(s[6..10]);
    var n := a * 0x1_0000_0000 + b;
    WordOctets(n);
    assert n / 0x1_0000_0000 == a && n % 0x1_0000_0000 == b;
  }

  lemma WordRead(s: seq<byte>)
    requires |s| == 4
    ensures var w := FromBe32(s);
            && s[0] == w / 0x100_0000 && s[1] == w / 0x1_0000 % 0x100
            && s[2] == w % 0x1_0000 / 0x100 && s[3] == w % 0x100
  {
    var w := FromBe32(s);
    assert w == ((s[0] as int * 0x100 + s[1]) * 0x100 + s[2]) * 0x100 + s[3];
  }

  // The other way round: a frame in any of the three forms is read for what it is, whatever
  // comes behind it.
  lemma FrameReads(s: seq<byte>, form: Form, key: Option<Mask>, f: Frame, t: seq<byte>)
    requires IsFrame(s, form, key, f)
    ensures Complete(s + t) && FrameLen(s + t) == |s| && FirstFrame(s + t) == f
  {
    hide Masked, Unmasks, HasLength, FromBe32;
    var w, head := s + t, HeadLength(form);
    LengthKnown(s, form, key.Some?, |f.payload|, t);
    match key
    case None =>
      assert w[head..|s|] == s[head..];
    case Some(k) =>
      MaskedMeans(s[head + 4..], k, f.payload);
      SameSize(s[head + 4..], k, f.payload);
      assert w[head + 4..|s|] == s[head + 4..] && w[head..head + 4] == k;
  }

  lemma SameSize(data: seq<byte>, key: Mask, plain: seq<byte>)
    requires Unmasks(data, key, plain)
    ensures |plain| == |data|
  {}

  lemma LengthKnown(s: seq<byte>, form: Form, masked: bool, n: nat, t: seq<byte>)
    requires HeadLength(form) <= |s| && HasLength(s[..HeadLength(form)], form, masked, n)
    requires |s| >= HeadLength(form) + (if masked then 4 else 0)
    ensures ReadHead(s + t) == Head(HeadLength(form) + (if masked then 4 else 0), n, masked)
  {
    hide FromBe32;
    var w, h := s + t, s[..HeadLength(form)];
    assert forall k :: 0 <= k < |h| ==> w[k] == h[k];
    if form.Long? {
      WordRead(w[2..6]);
      WordRead(w[6..10]);
      LongIs(h, n, FromBe32(w[2..6]), FromBe32(w[6..10]));
    }
  }

  lemma LongIs(h: seq<byte>, n: nat, a: u32, b: u32)
    requires |h| == 10 && n < SIZE_MAX
    requires HasLength(h, Long, h[1] >= 128, n)
    requires h[2] == a / 0x100_0000 && h[3] == a / 0x1_0000 % 0x100 && h[4] == a % 0x1_0000 / 0x100 && h[5] == a % 0x100
    requires h[6] == b / 0x100_0000 && h[7] == b / 0x1_0000 % 0x100 && h[8] == b % 0x1_0000 / 0x100 && h[9] == b % 0x100
    ensures a * 0x1_0000_0000 + b == n
  {
    WordOctets(n);
    WordIs(a, n / 0x1_0000_0000);
    WordIs(b, n % 0x1_0000_0000);
  }

  lemma WordIs(a: nat, b: nat)
    requires a < 0x1_0000_0000 && b < 0x1_0000_0000
    requires a / 0x100_0000 == b / 0x100_0000 && a / 0x1_0000 % 0x100 == b / 0x1_0000 % 0x100
    requires a % 0x1_0000 / 0x100 == b % 0x1_0000 / 0x100 && a % 0x100 == b % 0x100
    ensures a == b
  {
    WordParts(a);
    WordParts(b);
  }

  lemma WordParts(a: nat)
    ensures a == a / 0x100_0000 * 0x100_0000 + a / 0x1_0000 % 0x100 * 0x1_0000
                 + a % 0x1_0000 / 0x100 * 0x100 + a % 0x100
  {
    assert a / 0x1_0000 == a / 0x100_0000 * 0x100 + a / 0x1_0000 % 0x100;
    assert a == a / 0x1_0000 * 0x1_0000 + a % 0x1_0000;
    assert a % 0x1_0000 == a % 0x1_0000 / 0x100 * 0x100 + a % 0x100;
  }

  // The first n octets of s are this frame.
  ghost predicate StartsWith(s: seq<byte>, n: nat, f: Frame) {
    n <= |s| && exists form, key :: IsFrame(s[..n], form, key, f)
  }

  // A stream is these frames one after the other, and a rest that starts with no frame.
  ghost predicate Splits(s: seq<byte>, frames: seq<Frame>, rest: seq<byte>)
    decreases |frames|
  {
    if frames == [] then s == rest && forall n: nat, f :: !StartsWith(rest, n, f)
    else exists n :: 0 < n <= |s| && StartsWith(s, n, frames[0]) && Splits(s[n..], frames[1..], rest)
  }

  lemma FirstIsFrame(s: seq<byte>)
    requires Complete(s)
    ensures StartsWith(s, FrameLen(s), FirstFrame(s))
  {
    hide IsFrame, FirstFrame;
    var form, key := ReadIsFrame(s);
  }

  lemma NoFrame(s: seq<byte>)
    requires !Complete(s)
    ensures forall n: nat, f :: !StartsWith(s, n, f)
  {
    hide IsFrame, Complete;
    forall n: nat, f | StartsWith(s, n, f) ensures false {
      var form, key :| IsFrame(s[..n], form, key, f);
      assert s[..n] + s[n..] == s;
      FrameReads(s[..n], form, key, f, s[n..]);
    }
  }

  // What is delivered of a stream is exactly the frames it consists of.
  lemma {:induction false} DeliverSplits(s: seq<byte>)
    ensures Splits(s, Deliver(s).frames, Deliver(s).rest)
    decreases |s|
  {
    hide Complete, FirstFrame, FrameLen, StartsWith;
    if Complete(s) {
      FirstIsFrame(s);
      DeliverSplits(s[FrameLen(s)..]);
      var d := Deliver(s[FrameLen(s)..]);
      assert ([FirstFrame(s)] + d.frames)[1..] == d.frames;
    } else {
      NoFrame(s);
    }
  }

  // ------------------------------------------- examples of section 5.7

  lemma HelloFrames()
    ensures Wire(Frame(0x81, Ascii("Hello")), None) == [0x81, 0x05, 0x48, 0x65, 0x6c, 0x6c, 0x6f]
    ensures Wire(Frame(0x81, Ascii("Hello")), Some([0x37, 0xfa, 0x21, 0x3d]))
            == [0x81, 0x85, 0x37, 0xfa, 0x21, 0x3d, 0x7f, 0x9f, 0x4d, 0x51, 0x58]
  {
    hide Xor;
    var hello := Ascii("Hello");
    assert hello == [0x48, 0x65, 0x6c, 0x6c, 0x6f];
    HelloMasked();
    assert Masked(hello, [0x37, 0xfa, 0x21, 0x3d]) == [0x7f, 0x9f, 0x4d, 0x51, 0x58];
  }

  lemma HelloMasked()
    ensures Xor(0x48, 0x37) == 0x7f
    ensures Xor(0x65, 0xfa) == 0x9f
    ensures Xor(0x6c, 0x21) == 0x4d
    ensures Xor(0x6c, 0x3d) == 0x51
    ensures Xor(0x6f, 0x37) == 0x58
  {
    hide Xor;
    Masked4837();
    Masked65FA();
    Masked6C21();
    Masked6C3D();
    Masked6F37();
  }

  lemma Masked4837()
    ensures Xor(0x48, 0x37) == 0x7f
  {
    hide XorBits;
    OneBit(0, 0, 1, 0);
    OneBit(1, 0, 2, 1);
    OneBit(2, 1, 3, 3);
    OneBit(4, 3, 4, 7);
    OneBit(9, 6, 5, 15);
    OneBit(18, 13, 6, 31);
    OneBit(36, 27, 7, 63);
    OneBit(72, 55, 8, 127);
  }

  lemma Masked65FA()
    ensures Xor(0x65, 0xfa) == 0x9f
  {
    hide XorBits;
    OneBit(0, 1, 1, 1);
    OneBit(1, 3, 2, 2);
    OneBit(3, 7, 3, 4);
    OneBit(6, 15, 4, 9);
    OneBit(12, 31, 5, 19);
    OneBit(25, 62, 6, 39);
    OneBit(50, 125, 7, 79);
    OneBit(101, 250, 8, 159);
  }

  lemma Masked6C21()
    ensures Xor(0x6c, 0x21) == 0x4d
  {
    hide XorBits;
    OneBit(0, 0, 1, 0);
    OneBit(1, 0, 2, 1);
    OneBit(3, 1, 3, 2);
    OneBit(6, 2, 4, 4);
    OneBit(13, 4, 5, 9);
    OneBit(27, 8, 6, 19);
    OneBit(54, 16, 7, 38);
    OneBit(108, 33, 8, 77);
  }

  lemma Masked6C3D()
    ensures Xor(0x6c, 0x3d) == 0x51
  {
    hide XorBits;
    OneBit(0, 0, 1, 0);
    OneBit(1, 0, 2, 1);
    OneBit(3, 1, 3, 2);
    OneBit(6, 3, 4, 5);
    OneBit(13, 7, 5, 10);
    OneBit(27, 15, 6, 20);
    OneBit(54, 30, 7, 40);
    OneBit(108, 61, 8, 81);
  }

  lemma Masked6F37()
    ensures Xor(0x6f, 0x37) == 0x58
  {
    hide XorBits;
    OneBit(0, 0, 1, 0);
    OneBit(1, 0, 2, 1);
    OneBit(3, 1, 3, 2);
    OneBit(6, 3, 4, 5);
    OneBit(13, 6, 5, 11);
    OneBit(27, 13, 6, 22);
    OneBit(55, 27, 7, 44);
    OneBit(111, 55, 8, 88);
  }

  lemma OneBit(a: nat, b: nat, n: nat, x: nat)
    requires n > 0 && (n > 1 ==> XorBits(a / 2, b / 2, n - 1) == x / 2) && (n == 1 ==> x < 2)
    requires (a + b) % 2 == x % 2
    ensures XorBits(a, b, n) == x
  {
    assert n == 1 ==> XorBits(a / 2, b / 2, 0) == 0;
  }
}
