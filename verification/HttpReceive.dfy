// mg_handle_chunked of packages/mongoose-v6.7/mongoose.c: chunks are decoded in
// place in the receive buffer, whatever segments the stream arrives in.
module HttpReceive {
  import opened Bytes
  import opened HttpChunk
  import opened Mbufs
  import opened Memory

  // The buffer while chunks are collapsed: the body so far, then bytes to spare,
  // then what was not looked at yet, as it was.
  ghost predicate Collapsed(a: seq<byte>, was: seq<byte>, body: nat, at: nat, decoded: seq<byte>) {
    body <= at <= |was| <= |a| && a[..body] == decoded && a[at..|was|] == was[at..]
  }

  lemma CollapseNothing(a: seq<byte>, was: seq<byte>, at: nat)
    requires at <= |was| <= |a| && a[..|was|] == was
    ensures Collapsed(a, was, at, at, was[..at] + [])
  {
    assert a[..at] == a[..|was|][..at];
    assert a[at..|was|] == a[..|was|][at..];
  }

  lemma Unread(a: seq<byte>, was: seq<byte>, body: nat, at: nat, decoded: seq<byte>)
    requires Collapsed(a, was, body, at, decoded)
    ensures |was| <= |a| && a[at..|was|] == was[at..] && a[..body] == decoded
  {}

  // One chunk's data moved down to the body.
  lemma CollapseMore(a: seq<byte>, b: seq<byte>, was: seq<byte>, body: nat, at: nat, decoded: seq<byte>, c: Chunk)
    requires Collapsed(a, was, body, at, decoded) && |a| == |b|
    requires at + c.total <= |was| && c.start + c.length <= c.total
    requires b[..body] == a[..body] && b[body..body + c.length] == a[at + c.start..at + c.start + c.length]
    requires b[body + c.length..] == a[body + c.length..]
    ensures Collapsed(b, was, body + c.length, at + c.total, decoded + was[at..][c.start..c.start + c.length])
  {
    var k, n := body + c.length, |was| - at;
    SliceOfSlice(a, at, |was|, c.start, c.start + c.length);
    assert b[..k] == b[..body] + b[body..k];
    SliceOfSlice(b, k, |b|, at + c.total - k, |was| - k);
    SliceOfSlice(a, k, |a|, at + c.total - k, |was| - k);
    SliceOfSlice(a, at, |was|, c.total, n);
    SliceOfSlice(was, at, |was|, c.total, n);
    assert a[k..|a|] == a[k..] == b[k..] == b[k..|b|] && was[at..|was|] == was[at..];
    assert was[at..][c.start..c.start + c.length] == a[at..|was|][c.start..c.start + c.length];
  }

  lemma SliceOfSlice(s: seq<byte>, i: nat, j: nat, p: nat, q: nat)
    requires i <= j <= |s| && p <= q <= j - i
    ensures s[i..j][p..q] == s[i + p..i + q]
  {
    var whole, part := s[i..j], s[i + p..i + q];
    assert |whole[p..q]| == |part|;
    assert forall k :: 0 <= k < q - p ==> whole[p..q][k] == whole[p + k] == s[i + p + k] == part[k];
  }

  // Chunks have been turned into a body from position from up to body, out of the bytes up to at.
  ghost predicate Turned(a: seq<byte>, was: seq<byte>, from: nat, body: nat, at: nat, done: Body) {
    && from <= |was| <= BUFFER_MAX && body == from + |done.data| && at == from + done.used && !done.ended
    && at <= |was| && Bounded(was[at..])
    && Collapsed(a, was, body, at, was[..from] + done.data)
    && Unchunk(was[from..]) == Onto(done, Unchunk(was[at..]))
  }

  lemma TurnStart(a: seq<byte>, was: seq<byte>, from: nat)
    requires from <= |was| <= |a| && a[..|was|] == was && |was| <= BUFFER_MAX && Bounded(was[from..])
    ensures Turned(a, was, from, from, from, Body([], 0, false))
  {
    hide Unchunk, Bounded;
    CollapseNothing(a, was, from);
    NothingBefore(Unchunk(was[from..]));
  }

  lemma TurnMore(a: seq<byte>, b: seq<byte>, was: seq<byte>, from: nat, body: nat, at: nat, done: Body, c: Chunk)
    requires Turned(a, was, from, body, at, done) && |a| == |b| && c == ParseChunk(was[at..]) && c.total > 0
    requires b[..body] == a[..body] && b[body..body + c.length] == a[at + c.start..at + c.start + c.length]
    requires b[body + c.length..] == a[body + c.length..]
    ensures c.length > 0 ==>
      Turned(b, was, from, body + c.length, at + c.total,
             Onto(done, Body(was[at..][c.start..c.start + c.length], c.total, false)))
    ensures c.length == 0 ==>
      var all := Body(done.data, done.used + c.total, true);
      Finished(b, was, from, body, at + c.total, all) && all == Unchunk(was[from..])
  {
    hide Unchunk, ParseChunk, Collapsed, Bounded;
    Unread(a, was, body, at, was[..from] + done.data);
    BoundedBehind(was, at, c);
    CollapseMore(a, b, was, body, at, was[..from] + done.data, c);
    UnchunkStep(was[at..]);
    var d := was[at..][c.start..c.start + c.length];
    assert was[..from] + done.data + d == was[..from] + (done.data + d);
    assert was[at..][c.total..] == was[at + c.total..];
    var more := Body(d, c.total, false);
    if c.length > 0 {
      assert Unchunk(was[at..]) == Onto(more, Unchunk(was[at + c.total..]));
      OntoOnto(done, more, Unchunk(was[at + c.total..]));
    } else {
      assert done.data + d == done.data && d == [];
      assert Unchunk(was[at..]) == Body([], c.total, true);
      assert Onto(done, Body([], c.total, true)) == Body(done.data, done.used + c.total, true);
    }
  }

  // The loop is over: the buffer holds what Unchunk says.
  ghost predicate Finished(a: seq<byte>, was: seq<byte>, from: nat, body: nat, at: nat, b: Body) {
    && from <= |was| && b == Unchunk(was[from..]) && body == from + |b.data| && at == from + b.used
    && Collapsed(a, was, body, at, was[..from] + b.data)
  }

  lemma TurnStop(a: seq<byte>, was: seq<byte>, from: nat, body: nat, at: nat, done: Body)
    requires Turned(a, was, from, body, at, done) && ParseChunk(was[at..]).total == 0
    ensures Finished(a, was, from, body, at, done) && done == Unchunk(was[from..]) && !done.ended
  {
    hide Unchunk, ParseChunk, Collapsed;
    Unread(a, was, body, at, was[..from] + done.data);
    UnchunkStep(was[at..]);
    NothingBehind(done);
  }

  lemma TurnBounds(a: seq<byte>, was: seq<byte>, from: nat, body: nat, at: nat, done: Body)
    requires Turned(a, was, from, body, at, done)
    ensures from <= body <= at <= |was| <= |a| && a[at..|was|] == was[at..]
    ensures |was| <= BUFFER_MAX && ScanChunk(was[at..]) == Scanned(ParseChunk(was[at..]))
  {
    hide Unchunk, Bounded, ScanChunk, ParseChunk;
    BoundedStep(was[at..]);
  }

  // mg_handle_chunked for a handler that keeps the data; buf starts at off, after
  // the headers, and its first bodyLen bytes are decoded already.
  method HandleChunked(io: Mbuf, off: nat, bodyLen: nat) returns (body: nat, ended: bool)
    requires io.Valid() && off + bodyLen <= io.len <= BUFFER_MAX && Bounded(io.Contents()[off + bodyLen..])
    modifies io`len, io.buf
    ensures io.Valid()
    ensures var was := old(io.Contents()); var b := Unchunk(was[off + bodyLen..]);
            && io.Contents() == was[..off + bodyLen] + b.data + was[off + bodyLen..][b.used..]
            && body == bodyLen + |b.data| && ended == b.ended
  {
    hide Unchunk, ParseChunk, Finished, Collapsed;
    var i;
    ghost var was := io.Contents();
    body, i, ended := Collapse(io, off, bodyLen);
    FinishedParts(io.buf[..], was, off + bodyLen, off + body, off + i, Unchunk(was[off + bodyLen..]));
    if i > body {
      Shift(io, off + body, off + i);
    }
  }

  lemma FinishedParts(a: seq<byte>, was: seq<byte>, from: nat, body: nat, at: nat, b: Body)
    requires Finished(a, was, from, body, at, b)
    ensures from <= body <= at <= |was| <= |a| && body == from + |b.data| && at == from + b.used
    ensures var now := a[..|was|];
            now[..body] == was[..from] + b.data && now[at..] == was[from..][b.used..] &&
            (body == at ==> now == now[..body] + now[at..])
  {
    var now := a[..|was|];
    assert now[..body] == a[..body];
    assert now[at..] == a[at..|was|];
    Tail(was, from, b.used);
  }

  // Close the gap between two positions; the bytes it leaves behind are cleared.
  method Shift(io: Mbuf, at: nat, end: nat)
    requires io.Valid() && at <= end <= io.len
    modifies io`len, io.buf
    ensures io.Valid() && io.Contents() == old(io.Contents()[..at] + io.Contents()[end..])
  {
    ghost var was := io.Contents();
    var n := io.len - end;
    MemMove(io.buf, at, end, n);
    ghost var all := io.buf[..at + n];
    assert all == was[..at] + was[end..] by {
      assert all == all[..at] + all[at..];
      assert was[..at] == all[..at];
    }
    forall k | at + n <= k < io.len {
      io.buf[k] := 0;
    }
    assert io.buf[..at + n] == all;
    io.len := at + n;
  }

  lemma Tail(was: seq<byte>, from: nat, n: nat)
    requires from + n <= |was|
    ensures was[from..][n..] == was[from + n..]
  {}

  // The loop over the chunks that are fully buffered.
  method Collapse(io: Mbuf, off: nat, bodyLen: nat) returns (body: nat, i: nat, ended: bool)
    requires io.Valid() && off + bodyLen <= io.len <= BUFFER_MAX && Bounded(io.Contents()[off + bodyLen..])
    modifies io.buf
    ensures var was := old(io.Contents()); var b := Unchunk(was[off + bodyLen..]);
            ended == b.ended && Finished(io.buf[..], was, off + bodyLen, off + body, off + i, b)
  {
    hide Unchunk, Collapsed, ParseChunk, Turned, Finished, Bounded, ScanChunk, Onto;
    ghost var was, from, done := io.Contents(), off + bodyLen, Body([], 0, false);
    body, i := bodyLen, bodyLen;
    TurnStart(io.buf[..], was, from);
    while true
      invariant Turned(io.buf[..], was, from, off + body, off + i, done)
      decreases |was| - i
    {
      TurnBounds(io.buf[..], was, from, off + body, off + i, done);
      assert io.buf[off + i..io.len] == was[off + i..];
      var r := ReadChunk(io.buf[off + i..io.len]);
      var c := r.chunk;
      if c.total == 0 {
        TurnStop(io.buf[..], was, from, off + body, off + i, done);
        return body, i, false;
      }
      MoveChunk(io.buf, off + body, off + i, c, was, from, done);
      done := Onto(done, Body(was[off + i..][c.start..c.start + c.length], c.total, false));
      body := body + c.length;
      i := i + c.total;
      if c.length == 0 {
        return body, i, true;
      }
    }
  }

  // memmove of one chunk's data to the end of the body
  method MoveChunk(a: array<byte>, to: nat, at: nat, c: Chunk, ghost was: seq<byte>, ghost from: nat, ghost done: Body)
    requires Turned(a[..], was, from, to, at, done) && at <= |was| && c == ParseChunk(was[at..]) && c.total > 0
    modifies a
    ensures c.length > 0 ==>
      Turned(a[..], was, from, to + c.length, at + c.total,
             Onto(done, Body(was[at..][c.start..c.start + c.length], c.total, false)))
    ensures c.length == 0 ==>
      var all := Body(done.data, done.used + c.total, true);
      Finished(a[..], was, from, to, at + c.total, all) && all == Unchunk(was[from..])
  {
    hide Unchunk, ParseChunk, Turned, Finished, Onto;
    ghost var before := a[..];
    TurnBounds(before, was, from, to, at, done);
    MemMove(a, to, at + c.start, c.length);
    TurnMore(before, a[..], was, from, to, at, done, c);
  }

  lemma BoundedBehind(was: seq<byte>, at: nat, c: Chunk)
    requires at <= |was| <= BUFFER_MAX && Bounded(was[at..]) && c == ParseChunk(was[at..])
    ensures at + c.total <= |was| && (c.total > 0 && c.length > 0 ==> Bounded(was[at + c.total..]))
  {
    hide ParseChunk;
    BoundedStep(was[at..]);
    Tail(was, at, c.total);
  }

  // ------------------------------------------------------------------ runs

  // What the buffer holds when these bytes have come in behind the headers.
  ghost function Held(head: seq<byte>, received: seq<byte>): seq<byte> {
    var b := Unchunk(received);
    head + b.data + received[b.used..]
  }

  lemma HeldMore(head: seq<byte>, received: seq<byte>, segment: seq<byte>)
    requires !Unchunk(received).ended
    ensures var a := Unchunk(received); var was := Held(head, received) + segment; var n := |head| + |a.data|;
            && n <= |was| && Unchunk(received + segment) == Onto(a, Unchunk(was[n..]))
            && Held(head, received + segment) == was[..n] + Unchunk(was[n..]).data + was[n..][Unchunk(was[n..]).used..]
  {
    hide Unchunk;
    var a := Unchunk(received);
    var before, old' := head + a.data, received[a.used..];
    var rest := old' + segment;
    Joint(before, old', segment);
    UnchunkMore(received, segment);
    Suffix(received, segment, a.used, Unchunk(rest).used);
    assert head + (a.data + Unchunk(rest).data) == before + Unchunk(rest).data;
  }

  lemma HeldBounded(head: seq<byte>, received: seq<byte>, segment: seq<byte>)
    requires |head| + |received| + |segment| <= BUFFER_MAX && Bounded(received + segment)
    requires !Unchunk(received).ended
    ensures var was := Held(head, received) + segment; var n := |head| + |Unchunk(received).data|;
            n <= |was| <= BUFFER_MAX && Bounded(was[n..])
  {
    hide Unchunk, Bounded;
    var a := Unchunk(received);
    BoundedParts(received, segment);
    Joint(head + a.data, received[a.used..], segment);
  }

  lemma Joint(x: seq<byte>, y: seq<byte>, z: seq<byte>)
    ensures (x + y + z)[..|x|] == x && (x + y + z)[|x|..] == y + z
  {}

  lemma Suffix(s: seq<byte>, t: seq<byte>, i: nat, j: nat)
    requires i <= |s| && j <= |s| - i + |t|
    ensures (s + t)[i + j..] == (s[i..] + t)[j..]
  {}

  lemma {:induction false} ConcatStarts(segments: seq<seq<byte>>, k: nat)
    requires k <= |segments|
    ensures Concat(segments[..k]) <= Concat(segments)
    decreases |segments|
  {
    if k == |segments| {
      assert segments[..k] == segments;
    } else {
      var n := |segments| - 1;
      assert segments[..n][..k] == segments[..k];
      ConcatStarts(segments[..n], k);
    }
  }

  // One more segment
  method ReceiveOne(io: Mbuf, head: seq<byte>, segment: seq<byte>, bodyLen: nat, ghost received: seq<byte>)
    returns (body: nat, ended: bool)
    requires io.Valid() && io.Contents() == Held(head, received)
    requires bodyLen == |Unchunk(received).data| && !Unchunk(received).ended
    requires |head| + |received| + |segment| <= BUFFER_MAX && Bounded(received + segment)
    modifies io, io.buf
    ensures io.Valid() && io.Contents() == Held(head, received + segment) && (io.buf == old(io.buf) || fresh(io.buf))
    ensures body == |Unchunk(received + segment).data| && ended == Unchunk(received + segment).ended
  {
    hide Unchunk, Held;
    HeldMore(head, received, segment);
    HeldBounded(head, received, segment);
    io.Append(segment);
    body, ended := HandleChunked(io, |head|, bodyLen);
  }

  // Segments come in one after the other until the empty chunk has been seen: the
  // body is what the whole stream decodes to, and nothing else is lost.
  method Receive(head: seq<byte>, segments: seq<seq<byte>>) returns (io: Mbuf, body: nat, ended: bool)
    requires |head| + |Concat(segments)| <= BUFFER_MAX && Bounded(Concat(segments))
    ensures io.Valid()
    ensures var b := Unchunk(Concat(segments));
            && ended == b.ended && body == |b.data|
            && (exists k :: 0 <= k <= |segments| && io.Contents() == Held(head, Concat(segments[..k])) &&
                            Unchunk(Concat(segments[..k])) == b && (!ended ==> k == |segments|))
  {
    hide Unchunk, Held, Concat, Bounded;
    NoSegments();
    io := new Mbuf(0);
    io.Append(head);
    body, ended := 0, false;
    HeldNothing(head);
    var k := 0;
    while k < |segments| && !ended
      invariant k <= |segments| && io.Valid() && fresh(io) && fresh(io.buf)
      invariant var received := Concat(segments[..k]);
                && io.Contents() == Held(head, received)
                && body == |Unchunk(received).data| && ended == Unchunk(received).ended
      decreases |segments| - k
    {
      ConcatMore(segments, k);
      BoundedStart(segments, k + 1);
      body, ended := ReceiveOne(io, head, segments[k], body, Concat(segments[..k]));
      k := k + 1;
    }
    ghost var received, all := Concat(segments[..k]), Concat(segments);
    ConcatStarts(segments, k);
    assert received + all[|received|..] == all;
    if ended {
      UnchunkMore(received, all[|received|..]);
    } else {
      assert segments[..k] == segments;
    }
  }

  lemma BoundedStart(segments: seq<seq<byte>>, k: nat)
    requires k <= |segments| && |Concat(segments)| <= BUFFER_MAX && Bounded(Concat(segments))
    ensures |Concat(segments[..k])| <= |Concat(segments)| && Bounded(Concat(segments[..k]))
  {
    hide Concat, Bounded, Unchunk;
    ConcatStarts(segments, k);
    var s, all := Concat(segments[..k]), Concat(segments);
    assert s + all[|s|..] == all;
    BoundedParts(s, all[|s|..]);
  }

  lemma NoSegments()
    ensures Concat<byte>([]) == []
  {}

  lemma ConcatMore(segments: seq<seq<byte>>, k: nat)
    requires k < |segments|
    ensures Concat(segments[..k + 1]) == Concat(segments[..k]) + segments[k]
  {
    assert segments[..k + 1][..k] == segments[..k];
  }

  lemma HeldNothing(head: seq<byte>)
    ensures Held(head, []) == head && Unchunk([]) == Body([], 0, false)
  {
    assert head + [] + [] == head;
  }

  // A stream the writer made arrives as the chunks it was made of.
  method ReceiveWritten(head: seq<byte>, segments: seq<seq<byte>>, ghost chunks: seq<seq<byte>>)
    returns (io: Mbuf, body: nat)
    requires (forall i :: 0 <= i < |chunks| ==> 0 < |chunks[i]| < WORD) && Concat(segments) == Stream(chunks)
    requires |head| + |Stream(chunks)| <= 0x7FFF_FFFF
    ensures io.Valid() && io.Contents() == head + Flat(chunks) && body == |Flat(chunks)|
  {
    hide Unchunk, Bounded, Held, Concat, Stream;
    var ended;
    StreamDecodes(chunks, []);
    assert Stream(chunks) + [] == Stream(chunks);
    io, body, ended := Receive(head, segments);
    ghost var k: nat :| 0 <= k <= |segments| && io.Contents() == Held(head, Concat(segments[..k])) &&
                        Unchunk(Concat(segments[..k])) == Unchunk(Stream(chunks));
    ConcatStarts(segments, k);
    HeldWhole(head, chunks, Concat(segments[..k]));
  }

  lemma HeldWhole(head: seq<byte>, chunks: seq<seq<byte>>, received: seq<byte>)
    requires received <= Stream(chunks) && Unchunk(received) == Body(Flat(chunks), |Stream(chunks)|, true)
    ensures Held(head, received) == head + Flat(chunks)
  {
    hide Unchunk, Stream;
    assert received[|Stream(chunks)|..] == [];
    assert head + Flat(chunks) + [] == head + Flat(chunks);
  }
}
