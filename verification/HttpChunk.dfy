// The chunked transfer coding of packages/mongoose-v6.7/mongoose.c (section 4.1
// of RFC 7230): what one chunk is, what a whole stream decodes to, and that
// reading a stream in pieces changes nothing.
module HttpChunk {
  import opened Bytes

  const CR: byte := 0x0D
  const LF: byte := 0x0A

  // A size_t has 32 bits.
  const WORD := 0x1_0000_0000

  // No object takes more than half of the address space.
  const BUFFER_MAX := 0x7FFF_FFFF

  function Word(n: int): u32 { n % WORD }

  // How far the digits go, and the number they make in a size_t.
  function Digits(s: seq<byte>, i: nat): (j: nat)
    requires i <= |s|
    ensures i <= j <= |s|
    decreases |s| - i
  {
    if i < |s| && HexValue(s[i]).Some? then Digits(s, i + 1) else i
  }

  function Number(s: seq<byte>, i: nat, n: u32): u32
    requires i <= |s|
    decreases |s| - i
  {
    if i < |s| && HexValue(s[i]).Some? then Number(s, i + 1, Word(Word(n * 16) + HexValue(s[i]).value)) else n
  }

  predicate NewLine(s: seq<byte>, i: nat) {
    i + 2 <= |s| && s[i] == CR && s[i + 1] == LF
  }

  // A chunk at the start of s: all its bytes, and where its data is; no bytes when it is not all there.
  datatype Chunk = Chunk(total: nat, start: nat, length: nat)

  function ParseChunk(s: seq<byte>): (c: Chunk)
    ensures c.total <= |s|
    ensures c.total > 0 ==> c.start + c.length + 2 == c.total && c.start >= 3
  {
    var i := Digits(s, 0);
    var n := Number(s, 0, 0);
    if i == 0 || !NewLine(s, i) || !NewLine(s, i + 2 + n) then Chunk(0, 0, 0) else Chunk(i + 4 + n, i + 2, n)
  }

  // What mg_http_parse_chunk makes of s: a chunk, or a look outside the buffer.
  datatype Scan = Scanned(chunk: Chunk) | Outside

  // The program's own arithmetic, each sum in a size_t
  function ScanChunk(s: seq<byte>): (r: Scan)
    requires |s| <= BUFFER_MAX
  {
    var i := Digits(s, 0);
    var n := Number(s, 0, 0);
    if i == 0 || !NewLine(s, i) then Scanned(Chunk(0, 0, 0))
    else
      var j := Word(i + 2 + n);
      if j == 0 || Word(j + 2) > |s| then Scanned(Chunk(0, 0, 0))
      else if j + 2 > |s| then Outside
      else if NewLine(s, j) then Scanned(Chunk(j + 2, i + 2, n))
      else Scanned(Chunk(0, 0, 0))
  }

  // The program looks at its buffer only, and what it returns lies in it.
  predicate Within(s: seq<byte>)
    requires |s| <= BUFFER_MAX
  {
    var r := ScanChunk(s);
    r.Scanned? && (r.chunk.total > 0 ==> r.chunk.start + r.chunk.length + 2 == r.chunk.total <= |s|)
  }

  // The lengths behind i digits for which the sum goes round to the line end it has just
  // passed, or for which the look at the next line end starts at the last words of all.
  predicate Wraps(i: nat, n: u32) {
    n == WORD - 2 || n == WORD - 3 - i || n == WORD - 4 - i
  }

  // Exactly then, and exactly when it finds the chunk that is there, the program stays in its buffer.
  lemma WithinExactly(s: seq<byte>)
    requires |s| <= 0x7FFF_FFFF
    ensures var i := Digits(s, 0);
            Within(s) <==> (i > 0 && NewLine(s, i) ==> !Wraps(i, Number(s, 0, 0)))
    ensures Within(s) <==> ScanChunk(s) == Scanned(ParseChunk(s))
  {
    hide Number;
    DigitsDiffer(s, 0);
  }

  // A line end does not stand among the digits.
  lemma {:induction false} DigitsDiffer(s: seq<byte>, i: nat)
    requires i <= |s|
    ensures forall k :: i <= k < Digits(s, i) ==> HexValue(s[k]).Some? && s[k] != CR
    decreases |s| - i
  {
    if i < |s| && HexValue(s[i]).Some? {
      DigitsDiffer(s, i + 1);
    }
  }

  // No sum wraps, so the program stays in its buffer.
  lemma SmallStaysWithin(s: seq<byte>)
    requires |s| <= 0x7FFF_FFFF && Digits(s, 0) + 4 + Number(s, 0, 0) < 0x1_0000_0000
    ensures Within(s)
  {
    hide Number;
    WithinExactly(s);
  }

  // Ten bytes announce a chunk of 2^32 - 2, which the program takes for complete.
  lemma WrappedChunk()
    ensures var s := LARGEST + [CR, LF];
            ScanChunk(s) == Scanned(Chunk(10, 10, WORD - 2)) && ParseChunk(s).total == 0 && !Within(s)
  {
    var s := LARGEST + [CR, LF];
    assert s[8] == CR && s[9] == LF;
    LargestNumber(s);
  }

  // FFFFFFFE
  const LARGEST: seq<byte> := [0x46, 0x46, 0x46, 0x46, 0x46, 0x46, 0x46, 0x45]

  lemma LargestNumber(s: seq<byte>)
    requires s == LARGEST + [CR, LF]
    ensures Digits(s, 0) == 8 && Number(s, 0, 0) == WORD - 2
  {
    hide Digits, Number;
    OneDigit(s, 0, 0, 15);
    OneDigit(s, 1, 0xF, 15);
    OneDigit(s, 2, 0xFF, 15);
    OneDigit(s, 3, 0xFFF, 15);
    OneDigit(s, 4, 0xFFFF, 15);
    OneDigit(s, 5, 0xF_FFFF, 15);
    OneDigit(s, 6, 0xFF_FFFF, 15);
    OneDigit(s, 7, 0xFFF_FFFF, 14);
    NoDigit(s, 8, WORD - 2);
  }

  lemma OneDigit(s: seq<byte>, i: nat, n: u32, d: nat)
    requires i < |s| && HexValue(s[i]) == Some(d) && n * 16 + d < WORD
    ensures Digits(s, i) == Digits(s, i + 1) && Number(s, i, n) == Number(s, i + 1, n * 16 + d)
  {}

  lemma NoDigit(s: seq<byte>, i: nat, n: u32)
    requires i < |s| && HexValue(s[i]) == None
    ensures Digits(s, i) == i && Number(s, i, n) == n
  {}

  // mg_http_parse_chunk
  method ReadChunk(s: seq<byte>) returns (r: Scan)
    requires |s| <= BUFFER_MAX
    ensures r == ScanChunk(s)
  {
    var n: u32, i: u32 := 0, 0;
    while i < |s| && HexValue(s[i]).Some?
      invariant i <= |s| && Digits(s, i) == Digits(s, 0) && Number(s, i, n) == Number(s, 0, 0)
    {
      n := Word(n * 16);
      n := Word(n + HexValue(s[i]).value);
      i := i + 1;
    }
    if i == 0 || Word(i + 2) > |s| || s[i] != CR || s[i + 1] != LF {
      return Scanned(Chunk(0, 0, 0));
    }
    i := i + 2;
    var start := i;
    i := Word(i + n);
    if i == 0 || Word(i + 2) > |s| {
      return Scanned(Chunk(0, 0, 0));
    }
    if i + 2 > |s| {
      return Outside;
    }
    if s[i] != CR || s[i + 1] != LF {
      return Scanned(Chunk(0, 0, 0));
    }
    return Scanned(Chunk(i + 2, start, n));
  }

  // What a stream holds so far: the data of its complete chunks, the bytes they
  // took, and whether the last of them was the empty one.
  datatype Body = Body(data: seq<byte>, used: nat, ended: bool)

  function Onto(a: Body, b: Body): Body {
    Body(a.data + b.data, a.used + b.used, b.ended)
  }

  function Unchunk(s: seq<byte>): (b: Body)
    ensures b.used <= |s| && |b.data| <= b.used
    decreases |s|
  {
    var c := ParseChunk(s);
    if c.total == 0 then Body([], 0, false)
    else if c.length == 0 then Body([], c.total, true)
    else Onto(Body(s[c.start..c.start + c.length], c.total, false), Unchunk(s[c.total..]))
  }

  // No chunk announces a length with which the program leaves its buffer.
  predicate Bounded(s: seq<byte>)
    requires |s| <= BUFFER_MAX
    decreases |s|
  {
    var c := ParseChunk(s);
    Within(s) && (c.total > 0 && c.length > 0 ==> Bounded(s[c.total..]))
  }

  lemma BoundedStep(s: seq<byte>)
    requires |s| <= BUFFER_MAX && Bounded(s)
    ensures ScanChunk(s) == Scanned(ParseChunk(s))
    ensures var c := ParseChunk(s); c.total > 0 && c.length > 0 ==> Bounded(s[c.total..])
  {
    hide ParseChunk, ScanChunk, Digits, Number;
    WithinExactly(s);
  }

  // ------------------------------------------------ any cut into segments

  lemma {:induction false} DigitsStay(s: seq<byte>, t: seq<byte>, i: nat, n: u32)
    requires i <= |s| && Digits(s, i) < |s|
    ensures Digits(s + t, i) == Digits(s, i) && Number(s + t, i, n) == Number(s, i, n)
    decreases |s| - i
  {
    if HexValue(s[i]).Some? {
      DigitsStay(s, t, i + 1, Word(Word(n * 16) + HexValue(s[i]).value));
    }
  }

  // A part of a stream takes the program outside only if the whole does.
  lemma WithinPrefix(s: seq<byte>, t: seq<byte>)
    requires |s + t| <= BUFFER_MAX && Within(s + t)
    ensures Within(s)
  {
    hide Number, ScanChunk, ParseChunk, Within;
    WithinExactly(s);
    WithinExactly(s + t);
    if Digits(s, 0) < |s| {
      DigitsStay(s, t, 0, 0);
    }
  }

  // The first and the second part of such a stream are such streams.
  lemma {:induction false} BoundedParts(s: seq<byte>, t: seq<byte>)
    requires |s + t| <= BUFFER_MAX && Bounded(s + t)
    ensures Bounded(s)
    ensures var a := Unchunk(s); !a.ended ==> Bounded(s[a.used..] + t)
    decreases |s|
  {
    hide ParseChunk, Unchunk, Within;
    UnchunkStep(s);
    WithinPrefix(s, t);
    var c := ParseChunk(s);
    if c.total > 0 {
      ChunkStays(s, t);
      if c.length > 0 {
        var r := s[c.total..];
        Behind(s, t, c);
        BoundedParts(r, t);
        assert s[Unchunk(s).used..] == r[Unchunk(r).used..];
      }
    } else {
      assert s[0..] == s;
    }
  }

  // A complete chunk stays what it is, whatever comes behind it.
  lemma ChunkStays(s: seq<byte>, t: seq<byte>)
    requires ParseChunk(s).total > 0
    ensures ParseChunk(s + t) == ParseChunk(s)
  {
    DigitsStay(s, t, 0, 0);
  }

  // More bytes only add to what was decoded before; where the program stays in its buffer on
  // the whole stream, it does so on either part.
  lemma UnchunkInParts(s: seq<byte>, t: seq<byte>)
    requires |s + t| <= BUFFER_MAX && Bounded(s + t)
    ensures var a := Unchunk(s);
            && Bounded(s)
            && if a.ended then Unchunk(s + t) == a
               else Bounded(s[a.used..] + t) && Unchunk(s + t) == Onto(a, Unchunk(s[a.used..] + t))
  {
    hide Bounded, Unchunk, Onto;
    BoundedParts(s, t);
    UnchunkMore(s, t);
  }

  lemma {:induction false} UnchunkMore(s: seq<byte>, t: seq<byte>)
    ensures var a := Unchunk(s);
            Unchunk(s + t) ==
            if a.ended then a
            else Onto(a, Unchunk(s[a.used..] + t))
    decreases |s|
  {
    hide ParseChunk, Unchunk;
    UnchunkStep(s);
    UnchunkStep(s + t);
    var c := ParseChunk(s);
    if c.total > 0 {
      ChunkStays(s, t);
      if c.length > 0 {
        var r := s[c.total..];
        Behind(s, t, c);
        UnchunkMore(r, t);
        assert s[Unchunk(s).used..] == r[Unchunk(r).used..];
        var d, a, b := s[c.start..c.start + c.length], Unchunk(r), Unchunk(r[Unchunk(r).used..] + t);
        assert d + (a.data + b.data) == d + a.data + b.data;
      }
    } else {
      assert s[0..] == s;
      NothingBefore(Unchunk(s + t));
    }
  }

  lemma NothingBefore(b: Body)
    ensures Onto(Body([], 0, false), b) == b
  {}

  lemma OntoOnto(a: Body, b: Body, c: Body)
    ensures Onto(Onto(a, b), c) == Onto(a, Onto(b, c))
  {
    assert a.data + b.data + c.data == a.data + (b.data + c.data);
  }

  lemma NothingBehind(a: Body)
    ensures Onto(a, Body([], 0, false)) == a.(ended := false)
  {}

  lemma Behind(s: seq<byte>, t: seq<byte>, c: Chunk)
    requires c.start + c.length <= c.total <= |s|
    ensures (s + t)[c.total..] == s[c.total..] + t
    ensures (s + t)[c.start..c.start + c.length] == s[c.start..c.start + c.length]
  {}

  lemma UnchunkStep(s: seq<byte>)
    ensures var c := ParseChunk(s);
            Unchunk(s) ==
            if c.total == 0 then Body([], 0, false)
            else if c.length == 0 then Body([], c.total, true)
            else Onto(Body(s[c.start..c.start + c.length], c.total, false), Unchunk(s[c.total..]))
  {
    hide ParseChunk;
  }

  // ------------------------------------------------------------ the writer

  function HexDigit(d: nat): byte
    requires d < 16
  {
    if d < 10 then 0x30 + d else 0x41 + (d - 10)
  }

  // "%lX"
  function HexText(n: nat): (s: seq<byte>)
    ensures |s| > 0
  {
    if n < 16 then [HexDigit(n)] else HexText(n / 16) + [HexDigit(n % 16)]
  }

  // mg_send_http_chunk
  function Written(data: seq<byte>): seq<byte> {
    HexText(|data|) + [CR, LF] + data + [CR, LF]
  }

  // The chunks one after the other, and the empty one at the end.
  function Stream(chunks: seq<seq<byte>>): seq<byte> {
    if chunks == [] then Written([]) else Written(chunks[0]) + Stream(chunks[1..])
  }

  predicate Stands(s: seq<byte>, i: nat, t: seq<byte>) {
    i + |t| <= |s| && s[i..i + |t|] == t
  }

  lemma {:induction false} HexReads(s: seq<byte>, i: nat, n: u32)
    requires Stands(s, i, HexText(n))
    ensures var j := i + |HexText(n)|; Digits(s, i) == Digits(s, j) && Number(s, i, 0) == Number(s, j, n)
  {
    hide Digits, Number;
    var t := HexText(n);
    if n >= 16 {
      var head, j := HexText(n / 16), i + |t| - 1;
      assert s[i..i + |head|] == s[i..i + |t|][..|head|] == head;
      HexReads(s, i, n / 16);
      assert s[j] == s[i..i + |t|][|head|] == HexDigit(n % 16);
      OneDigit(s, j, n / 16, n % 16);
    } else {
      assert s[i] == s[i..i + |t|][0];
      OneDigit(s, i, 0, n);
    }
  }

  // A written chunk is read for what it is, whatever comes behind it.
  lemma ChunkReads(data: seq<byte>, t: seq<byte>)
    requires |data| < WORD
    ensures |Written(data) + t| <= BUFFER_MAX ==> Within(Written(data) + t)
    ensures var c := ParseChunk(Written(data) + t);
            && c.total == |Written(data)| > 0 && c.length == |data|
            && (Written(data) + t)[c.start..c.start + c.length] == data && (Written(data) + t)[c.total..] == t
  {
    hide HexText;
    var h, s := HexText(|data|), Written(data) + t;
    Layout(h, data, t);
    HexReads(s, 0, |data|);
    if |s| <= BUFFER_MAX {
      SmallStaysWithin(s);
    }
  }

  lemma Layout(h: seq<byte>, data: seq<byte>, t: seq<byte>)
    ensures var s, n := h + [CR, LF] + data + [CR, LF] + t, |h| + |data|;
            && s[0..|h|] == h && s[|h|] == CR && s[|h| + 1] == LF && s[n + 2] == CR && s[n + 3] == LF
            && s[|h| + 2..n + 2] == data && s[n + 4..] == t
  {}

  // Any chunks, written one by one and ended, decode to their concatenation.
  lemma {:induction false} StreamDecodes(chunks: seq<seq<byte>>, t: seq<byte>)
    requires forall i :: 0 <= i < |chunks| ==> 0 < |chunks[i]| < WORD
    ensures |Stream(chunks) + t| <= BUFFER_MAX ==> Bounded(Stream(chunks) + t)
    ensures Unchunk(Stream(chunks) + t) == Body(Flat(chunks), |Stream(chunks)|, true)
    decreases |chunks|
  {
    hide ParseChunk, Written, Unchunk, Within;
    UnchunkStep(Stream(chunks) + t);
    if chunks == [] {
      ChunkReads([], t);
    } else {
      var head, rest := Written(chunks[0]), Stream(chunks[1..]);
      ChunkReads(chunks[0], rest + t);
      assert head + (rest + t) == head + rest + t;
      StreamDecodes(chunks[1..], t);
    }
  }
}
