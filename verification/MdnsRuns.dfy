// Runs of mdns_add_question and mdns_add_answer of ports/mdns/mdns.c with any
// names and data, calls that are refused among them: when the write offset
// stays within the packet, and when no inner write fails behind a check.
module MdnsRuns {
  import opened Bytes
  import opened MdnsWriter
  import opened MdnsName
  import opened MdnsPacket
  import opened MdnsPacketRoundTrip

  datatype Call = Ask(asked: Asked) | Tell(told: Told)

  function Step(o: Out, call: Call): (w: Written)
    requires ValidOut(o)
    ensures ValidOut(w.out)
  {
    match call
    case Ask(asked) => AddQuestion(o, asked)
    case Tell(told) => AddAnswer(o, told)
  }

  // All calls, whatever they return
  function Run(o: Out, calls: seq<Call>): (r: Out)
    requires ValidOut(o)
    ensures ValidOut(r)
    decreases |calls|
  {
    if calls == [] then o else Run(Step(o, calls[0]).out, calls[1..])
  }

  function DataLength(a: Answer): nat { |Taken(a)| + TargetLength(a) }

  // The length does not reach 2^16 only with the owner's name and the fixed fields.
  predicate Contained(a: Answer) {
    CutLength(a) < 0x1_0000 || DataLength(a) >= 0x1_0000
  }

  // --------------------------------------------------- the write offset

  // An answer whose length has wrapped: its data never fits, but what comes before it may.
  lemma WrappedAnswer(o: Out, a: Answer)
    requires ValidOut(o) && o.woff <= |o.buf| && WritableAnswer(a) && CutLength(a) >= 0x1_0000
    requires o.woff + AnswerLength(a) <= |o.buf|
    ensures var head := AddQuestion(o, Question(a.rr, a.skip)).out;
            ValidOut(head) && AddAnswer(o, a).out ==
            if head.woff + 4 > |o.buf| then head
            else TakeAt(head, Be32(a.ttl)).out.(woff := head.woff + 6)
  {
    hide AddQuestion, WriteDomain, Be32, Be16, AnswerLength;
    assert |Taken(a)| > OUTPACKET_SIZE;
    QuestionAppends(o, Question(a.rr, a.skip));
  }

  lemma AnswerStaysWithin(o: Out, a: Answer)
    requires ValidOut(o) && o.woff <= |o.buf| && WritableAnswer(a) && Contained(a)
    ensures Appends(o, AddAnswer(o, a).out)
  {
    hide AddAnswer, AddQuestion, WriteDomain, TakeAt, Be32, Be16, AnswerLength, Taken, FieldAt;
    if CutLength(a) < 0x1_0000 {
      AnswerSucceedsExactly(o, a);
      if AddAnswer(o, a).ok {
        WrittenAnswerAppends(o, a);
      }
    } else {
      WrappedAppends(o, a);
    }
  }

  lemma WrittenAnswerAppends(o: Out, a: Answer)
    requires ValidOut(o) && WritableAnswer(a) && o.woff + CutLength(a) <= |o.buf|
    ensures Appends(o, AddAnswer(o, a).out)
  {
    hide AddAnswer, AddQuestion, Named, Loaded, Be32, Be16, Taken, FieldAt;
    AnswerParts(o, a);
    var head := AddQuestion(o, Question(a.rr, a.skip)).out;
    LoadedFields(head, a);
    NamedAppends(Loaded(head, a), a);
  }

  lemma WrappedAppends(o: Out, a: Answer)
    requires ValidOut(o) && o.woff <= |o.buf| && WritableAnswer(a)
    requires CutLength(a) >= 0x1_0000 && DataLength(a) >= 0x1_0000
    ensures Appends(o, AddAnswer(o, a).out)
  {
    hide AddAnswer, AddQuestion, TakeAt, Be32, Be16, Taken, FieldAt, WriteDomain, AnswerLength, Appends;
    WrappedLength(a);
    if o.woff + AnswerLength(a) > |o.buf| {
      RefusedAtOnce(o, a);
      NothingAppended(o);
    } else {
      WrappedAnswer(o, a);
      var head := AddQuestion(o, Question(a.rr, a.skip)).out;
      QuestionAppends(o, Question(a.rr, a.skip));
      TakeAtAppends(head, Be32(a.ttl));
      SkippedAppends(o, head, TakeAt(head, Be32(a.ttl)).out);
    }
  }

  lemma NothingAppended(o: Out)
    requires ValidOut(o) && o.woff <= |o.buf|
    ensures Appends(o, o)
  {}

  lemma WrappedLength(a: Answer)
    requires WritableAnswer(a) && CutLength(a) >= 0x1_0000 && DataLength(a) >= 0x1_0000
    ensures AnswerLength(a) >= |a.rr.name| + 10
  {
    hide AnswerLength, Taken;
    AnswerLengthMeaning(a);
    assert |Taken(a)| < 0x1_0000;
  }

  // The length field is left out for now.
  lemma SkippedAppends(o: Out, head: Out, timed: Out)
    requires Appends(o, head) && Appends(head, timed) && timed.woff + 2 <= |o.buf|
    ensures Appends(o, timed.(woff := timed.woff + 2))
  {}

  lemma RefusedAtOnce(o: Out, a: Answer)
    requires ValidOut(o) && WritableAnswer(a) && o.woff + AnswerLength(a) > |o.buf|
    ensures AddAnswer(o, a) == Written(false, o)
  {}

  // Over every run of such calls the write offset stays within the packet, and no byte in
  // front of it changes any more.
  lemma {:induction false} RunStaysWithin(o: Out, calls: seq<Call>)
    requires ValidOut(o) && o.woff <= |o.buf|
    requires forall i :: 0 <= i < |calls| && calls[i].Tell? ==> Contained(calls[i].told)
    ensures Appends(o, Run(o, calls))
    decreases |calls|
  {
    hide AddAnswer, AddQuestion, Contained, FieldAt, Be16, WriteDomain;
    if calls != [] {
      match calls[0]
      case Ask(asked) =>
        QuestionAppends(o, asked);
        RunStaysWithin(Step(o, calls[0]).out, calls[1..]);
      case Tell(told) =>
        AnswerStaysWithin(o, told);
        RunStaysWithin(Step(o, calls[0]).out, calls[1..]);
    }
  }

  // What the callers in mdns.c pass as data: nothing, 4, 6 or 16 bytes, or TXT data of at most 256.
  predicate Short(calls: seq<Call>) {
    forall i :: 0 <= i < |calls| && calls[i].Tell? ==> |Given(calls[i].told)| <= DOMAIN_MAXLEN
  }

  // So every run of theirs stays within the packet.
  lemma CallersStayWithin(o: Out, calls: seq<Call>)
    requires ValidOut(o) && o.woff <= |o.buf| && Short(calls)
    ensures Appends(o, Run(o, calls)) && Run(o, calls).woff <= 500
  {
    hide Run;
    RunStaysWithin(o, calls);
  }

  // ------------------------------------------- where the offset is not kept

  // An answer for the root name with n bytes of data
  function Filler(n: nat): (a: Told)
    ensures |Given(a)| == n
  {
    Answer(Rr([0], 0, 0, false), false, 0, Some(seq(n, _ => 0)), None)
  }

  // A packet that remembers nothing but the root name.
  ghost predicate RootOnly(o: Out) {
    && ValidOut(o) && o.buf[DNS_HDR] == 0
    && forall i :: 0 <= i < NUM_DOMAIN_OFFSETS ==> o.offsets[i] == 0 || o.offsets[i] == DNS_HDR
  }

  // It has no tail to jump to: names are written in full.
  lemma NothingReused(o: Out, d: seq<byte>, skip: bool)
    requires RootOnly(o) && Writable(d) && o.woff + |d| <= |o.buf|
    ensures var w := WriteDomain(o, d, skip); w.ok && WroteCut(o, d, Cut(|d|, 0), w.out)
  {
    hide WriteDomain, BestCut, Compress, NoneShorter;
    RootRead(o.buf);
    var used := BestCutMeaning(o, d, skip);
    WriteWithinBounds(o, d, skip);
    assert BestCut(o, d, skip).writelen == |d|;
  }

  lemma RootRead(buf: seq<byte>)
    requires |buf| == OUTPACKET_SIZE && buf[DNS_HDR] == 0
    ensures ReadName(buf, DNS_HDR) == ReadResult(DNS_HDR + 1, [0])
  {
    assert ReadTurn(buf, DNS_HDR, []) == Close(DNS_HDR + 1, [] + [0]);
  }

  lemma FillerWritten(buf: seq<byte>, n: nat)
    requires |buf| == OUTPACKET_SIZE && n <= OUTPACKET_SIZE - 23
    ensures var w := AddAnswer(Fresh(buf), Filler(n)); w.ok && RootOnly(w.out) && w.out.woff == 23 + n
  {
    hide AddAnswer, AddQuestion, WriteDomain, Be32, Be16, Taken, FieldAt, Loaded, Put;
    var o, a := Fresh(buf), Filler(n);
    CutMeaning(a);
    AnswerParts(o, a);
    QuestionAppends(o, Question(a.rr, a.skip));
    FirstRoot(buf);
    var head := AddQuestion(o, Question(a.rr, a.skip)).out;
    LoadedFields(head, a);
  }

  lemma FirstRoot(buf: seq<byte>)
    requires |buf| == OUTPACKET_SIZE
    ensures var w := WriteDomain(Fresh(buf), [0], false); RootOnly(w.out) && w.out.woff == DNS_HDR + 1
  {
    hide WriteDomain, BestCut, Compress, CutUses, NoneShorter;
    var used := BestCutMeaning(Fresh(buf), [0], false);
    WriteWithinBounds(Fresh(buf), [0], false);
  }

  // Any other answer is refused by some packet only after the offset has left it, and one
  // call on a new packet leads there.
  lemma AnswerOverruns(a: Answer, buf: seq<byte>) returns (n: nat)
    requires WritableAnswer(a) && !Contained(a) && |buf| == OUTPACKET_SIZE
    ensures AddAnswer(Fresh(buf), Filler(n)).ok
    ensures !AddAnswer(AddAnswer(Fresh(buf), Filler(n)).out, a).ok
    ensures Run(Fresh(buf), [Tell(Filler(n)), Tell(a)]).woff > OUTPACKET_SIZE
  {
    hide AddAnswer, WriteDomain;
    n := OUTPACKET_SIZE - 32 - |a.rr.name|;
    FillerWritten(buf, n);
    var o := AddAnswer(Fresh(buf), Filler(n)).out;
    OverrunsFrom(o, a);
    TwoSteps(Fresh(buf), Tell(Filler(n)), Tell(a));
  }

  lemma TwoSteps(o: Out, first: Call, second: Call)
    requires ValidOut(o)
    ensures Run(o, [first, second]) == Step(Step(o, first).out, second).out
  {
    hide Step;
    assert [first, second][1..] == [second] && [second][1..] == [];
    assert Run(o, [first, second]) == Run(Step(o, first).out, [second]);
  }

  lemma OverrunsFrom(o: Out, a: Answer)
    requires WritableAnswer(a) && !Contained(a) && RootOnly(o) && o.woff == OUTPACKET_SIZE - |a.rr.name| - 9
    ensures !AddAnswer(o, a).ok && AddAnswer(o, a).out.woff > OUTPACKET_SIZE
  {
    hide AddAnswer, AddQuestion, TakeAt, Be32, Be16, Taken, FieldAt, WriteDomain;
    AnswerLengthMeaning(a);
    OversizedDataFails(o, a);
    WrappedAnswer(o, a);
    QuestionAppends(o, Question(a.rr, a.skip));
    NothingReused(o, a.rr.name, a.skip);
  }

  // --------------------------------------------------- the inner writes

  predicate Fits(o: Out, call: Call) {
    match call
    case Ask(asked) => o.woff + |asked.rr.name| + 4 <= |o.buf|
    case Tell(told) => o.woff + CutLength(told) <= |o.buf|
  }

  // Wherever a run has come to, a call is refused before it writes anything, or none of its writes fails.
  lemma NoInnerFailure(o: Out, calls: seq<Call>, i: nat)
    requires ValidOut(o) && o.woff <= |o.buf| && i < |calls|
    requires forall k :: 0 <= k <= i && calls[k].Tell? ==> CutLength(calls[k].told) < 0x1_0000
    ensures var now := Run(o, calls[..i]);
            Step(now, calls[i]).ok == Fits(now, calls[i]) && (!Fits(now, calls[i]) ==> Step(now, calls[i]).out == now)
  {
    hide AddAnswer, AddQuestion, CutLength, Run;
    RunStaysWithin(o, calls[..i]);
    var now := Run(o, calls[..i]);
    match calls[i]
    case Ask(asked) => QuestionAppends(now, asked);
    case Tell(told) => AnswerSucceedsExactly(now, told);
  }
}
