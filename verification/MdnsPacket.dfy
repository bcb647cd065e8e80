// The writers of questions and answers in ports/mdns/mdns.c: what their length
// checks let through, and what a write that succeeds leaves in the packet.
module MdnsPacket {
  import opened Bytes
  import opened MdnsWriter

  // ---------------------------------------------------------- the writers

  // A name to write; skip is its skip_compression flag.
  datatype Name = Name(bytes: seq<byte>, skip: bool)

  // Name, type and class; top is the unicast or cache-flush bit of the class field.
  datatype Rr = Rr(name: seq<byte>, rtype: u16, klass: u16, top: bool)

  datatype Question = Question(rr: Rr, skip: bool)

  datatype Answer = Answer(rr: Rr, skip: bool, ttl: u32, data: Option<seq<byte>>, target: Option<Name>)

  predicate WritableAnswer(a: Answer) {
    Writable(a.rr.name) && (a.target.Some? ==> Writable(a.target.value.bytes))
  }

  // Records whose names can be written.
  type Asked = q: Question | Writable(q.rr.name) witness Question(Rr([0], 0, 0, false), false)

  type Told = a: Answer | WritableAnswer(a) witness Answer(Rr([0], 0, 0, false), false, 0, None, None)

  function ClassField(rr: Rr): u16 {
    if rr.top && rr.klass < 0x8000 then rr.klass + 0x8000 else rr.klass
  }

  // mdns_add_question
  function AddQuestion(o: Out, question: Question): (w: Written)
    requires ValidOut(o) && Writable(question.rr.name)
    ensures ValidOut(w.out)
  {
    var rr := question.rr;
    if o.woff + U16(|rr.name| + 4) > |o.buf| then Written(false, o)
    else
      var named := WriteDomain(o, rr.name, question.skip);
      if !named.ok then named
      else
        var typed := TakeAt(named.out, Be16(rr.rtype));
        if !typed.ok then typed else TakeAt(typed.out, Be16(ClassField(rr)))
  }

  // The u16 worst case of mdns_add_answer.
  function AnswerLength(a: Answer): u16
    requires WritableAnswer(a)
  {
    var fixed := U16(|a.rr.name| + 10);
    var withData := if a.data.Some? then U16(fixed + U16(|a.data.value|)) else fixed;
    if a.target.Some? then U16(withData + |a.target.value.bytes|) else withData
  }

  // The static data that is written: its length passes through a u16.
  function Taken(a: Answer): (s: seq<byte>)
    ensures |s| < 0x1_0000
  {
    if a.data.Some? then a.data.value[..U16(|a.data.value|)] else []
  }

  // The data and the name of an answer, written at o.
  function AddPayload(o: Out, a: Answer): (w: Written)
    requires ValidOut(o) && WritableAnswer(a)
    ensures ValidOut(w.out)
  {
    var w := if a.data.Some? then TakeAt(o, Taken(a)) else Written(true, o);
    if !w.ok || a.target.None? then w
    else WriteDomain(w.out, a.target.value.bytes, a.target.value.skip)
  }

  // mdns_add_answer.  The result of adding the question part is not looked at.
  function AddAnswer(o: Out, a: Answer): (w: Written)
    requires ValidOut(o) && WritableAnswer(a)
    ensures ValidOut(w.out)
  {
    if o.woff + AnswerLength(a) > |o.buf| then Written(false, o)
    else
      var head := AddQuestion(o, Question(a.rr, a.skip)).out;
      var timed := TakeAt(head, Be32(a.ttl));
      if !timed.ok then timed
      else
        var hole := timed.out.woff;
        var body := AddPayload(timed.out.(woff := hole + 2), a);
        if !body.ok then body
        else if hole + 2 > |body.out.buf| then Written(false, body.out)
        else Written(true, body.out.(buf := Put(body.out.buf, hole, Be16(U16(body.out.woff - (hole + 2))))))
  }

  // ------------------------------------------------- what a write touches

  // o' is o with more bytes appended.
  ghost predicate Appends(o: Out, o': Out) {
    && ValidOut(o') && |o.buf| == |o'.buf| && o.woff <= o'.woff <= |o'.buf|
    && forall i :: 0 <= i < o.woff || o'.woff <= i < |o'.buf| ==> o'.buf[i] == o.buf[i]
  }

  ghost predicate FieldAt(p: seq<byte>, at: nat, data: seq<byte>) {
    at + |data| <= |p| && forall i :: at <= i < at + |data| ==> p[i] == data[i - at]
  }

  lemma TakeAtAppends(o: Out, data: seq<byte>)
    requires ValidOut(o) && o.woff + |data| <= |o.buf|
    ensures var w := TakeAt(o, data);
            && w.ok && Appends(o, w.out) && w.out.offsets == o.offsets && w.out.woff == o.woff + |data|
            && FieldAt(w.out.buf, o.woff, data)
  {}

  lemma WriteDomainAppends(o: Out, d: seq<byte>, skip: bool)
    requires ValidOut(o) && Writable(d) && o.woff + |d| <= |o.buf|
    ensures var w := WriteDomain(o, d, skip); w.ok && Appends(o, w.out) && w.out.woff <= o.woff + |d|
  {
    hide WriteDomain, BestCut;
    WriteWithinBounds(o, d, skip);
  }

  // The three writes of a question all succeed once its length check has passed.
  lemma QuestionAppends(o: Out, question: Question)
    requires ValidOut(o) && Writable(question.rr.name)
    ensures var w, rr := AddQuestion(o, question), question.rr;
            if o.woff + |rr.name| + 4 > |o.buf| then w == Written(false, o)
            else
              var named := WriteDomain(o, rr.name, question.skip).out;
              && w.ok && Appends(o, named) && Appends(named, w.out) && Appends(o, w.out)
              && w.out.offsets == named.offsets && w.out.woff == named.woff + 4 <= o.woff + |rr.name| + 4
              && FieldAt(w.out.buf, named.woff, Be16(rr.rtype))
              && FieldAt(w.out.buf, named.woff + 2, Be16(ClassField(rr)))
  {
    hide WriteDomain, TakeAt, Be16;
    var rr := question.rr;
    if o.woff + |rr.name| + 4 <= |o.buf| {
      WriteDomainAppends(o, rr.name, question.skip);
      var named := WriteDomain(o, rr.name, question.skip).out;
      TakeAtAppends(named, Be16(rr.rtype));
      TakeAtAppends(TakeAt(named, Be16(rr.rtype)).out, Be16(ClassField(rr)));
    }
  }

  function TargetLength(a: Answer): nat {
    if a.target.Some? then |a.target.value.bytes| else 0
  }

  // The static data a caller asks for.
  function Given(a: Answer): seq<byte> {
    if a.data.Some? then a.data.value else []
  }

  // The uncompressed size of the whole answer.
  function NeededLength(a: Answer): nat {
    |a.rr.name| + 10 + |Given(a)| + TargetLength(a)
  }

  // Likewise, with the data cut to its length modulo 2^16.
  function CutLength(a: Answer): nat {
    |a.rr.name| + 10 + |Taken(a)| + TargetLength(a)
  }

  lemma AnswerLengthMeaning(a: Answer)
    requires WritableAnswer(a)
    ensures AnswerLength(a) == U16(CutLength(a))
  {
    hide Taken;
    TakenLength(a);
    var fixed := |a.rr.name| + 10;
    AddedLate(fixed, |Taken(a)|);
    AddedLate(fixed + |Taken(a)|, TargetLength(a));
  }

  lemma TakenLength(a: Answer)
    ensures |Taken(a)| == if a.data.Some? then U16(|a.data.value|) else 0
  {}

  lemma AddedLate(x: nat, y: nat)
    ensures U16(U16(x) + y) == U16(x + y)
  {}

  lemma CutMeaning(a: Answer)
    ensures Taken(a) == Given(a)[..U16(|Given(a)|)]
    ensures Taken(a) == Given(a) <==> |Given(a)| < 0x1_0000
    ensures CutLength(a) <= NeededLength(a) && (|Given(a)| < 0x1_0000 <==> CutLength(a) == NeededLength(a))
  {}

  // The packet when only the target name of an answer is still to be written.
  function Loaded(head: Out, a: Answer): Out
    requires ValidOut(head) && head.woff + 6 + |Taken(a)| <= |head.buf|
  {
    var timed := TakeAt(head, Be32(a.ttl)).out;
    var spaced := timed.(woff := timed.woff + 2);
    if a.data.Some? then TakeAt(spaced, Taken(a)).out else spaced
  }

  lemma LoadedFields(head: Out, a: Answer)
    requires ValidOut(head) && head.woff + 6 + |Taken(a)| <= |head.buf|
    ensures var loaded := Loaded(head, a);
            && Appends(head, loaded) && loaded.offsets == head.offsets && loaded.woff == head.woff + 6 + |Taken(a)|
            && FieldAt(loaded.buf, head.woff, Be32(a.ttl)) && FieldAt(loaded.buf, head.woff + 6, Taken(a))
  {
    hide TakeAt, Be32;
    TakeAtAppends(head, Be32(a.ttl));
    var timed := TakeAt(head, Be32(a.ttl)).out;
    var spaced := timed.(woff := timed.woff + 2);
    if a.data.Some? {
      TakeAtAppends(spaced, Taken(a));
    }
  }

  // The packet after an answer, apart from its two length bytes at head.woff + 4.
  function Named(loaded: Out, a: Answer): Out
    requires ValidOut(loaded) && WritableAnswer(a)
  {
    if a.target.Some? then WriteDomain(loaded, a.target.value.bytes, a.target.value.skip).out else loaded
  }

  lemma NamedAppends(loaded: Out, a: Answer)
    requires ValidOut(loaded) && WritableAnswer(a) && loaded.woff + TargetLength(a) <= |loaded.buf|
    ensures Appends(loaded, Named(loaded, a)) && Named(loaded, a).woff <= loaded.woff + TargetLength(a)
    ensures a.target.Some? ==> WriteDomain(loaded, a.target.value.bytes, a.target.value.skip).ok
  {
    hide WriteDomain;
    if a.target.Some? {
      WriteDomainAppends(loaded, a.target.value.bytes, a.target.value.skip);
    }
  }

  lemma PayloadWritten(head: Out, a: Answer)
    requires ValidOut(head) && WritableAnswer(a) && head.woff + 6 + |Taken(a)| + TargetLength(a) <= |head.buf|
    ensures var timed := TakeAt(head, Be32(a.ttl));
            && timed.ok && ValidOut(timed.out) && timed.out.woff == head.woff + 4
            && AddPayload(timed.out.(woff := head.woff + 6), a) == Written(true, Named(Loaded(head, a), a))
  {
    hide WriteDomain, TakeAt, Be32;
    TakeAtAppends(head, Be32(a.ttl));
    LoadedFields(head, a);
    if a.data.Some? {
      TakeAtAppends(TakeAt(head, Be32(a.ttl)).out.(woff := head.woff + 6), Taken(a));
    }
    NamedAppends(Loaded(head, a), a);
    WrittenEta(Loaded(head, a), a);
  }

  lemma WrittenEta(loaded: Out, a: Answer)
    requires ValidOut(loaded) && WritableAnswer(a) && loaded.woff + TargetLength(a) <= |loaded.buf|
    ensures a.target.Some? ==>
              WriteDomain(loaded, a.target.value.bytes, a.target.value.skip) == Written(true, Named(loaded, a))
  {
    hide WriteDomain;
    NamedAppends(loaded, a);
  }

  // An answer that fits: no inner write fails, and only the claimed bytes change.
  lemma AnswerParts(o: Out, a: Answer)
    requires ValidOut(o) && WritableAnswer(a) && o.woff + CutLength(a) <= |o.buf|
    ensures var head, w := AddQuestion(o, Question(a.rr, a.skip)).out, AddAnswer(o, a);
            && ValidOut(head) && head.woff + 6 + |Taken(a)| + TargetLength(a) <= |head.buf| && Appends(o, head)
            && var named := Named(Loaded(head, a), a);
            && w.ok && head.woff + 6 <= named.woff <= |named.buf| == |o.buf|
            && w.out == named.(buf := Put(named.buf, head.woff + 4, Be16(named.woff - (head.woff + 6))))
  {
    hide AddQuestion, WriteDomain, TakeAt, Be16, Be32, AddPayload, Named, Loaded, Put, FieldAt, Taken, AnswerLength;
    AnswerLengthMeaning(a);
    var head := AddQuestion(o, Question(a.rr, a.skip)).out;
    QuestionAppends(o, Question(a.rr, a.skip));
    PayloadWritten(head, a);
    LoadedFields(head, a);
    NamedAppends(Loaded(head, a), a);
  }

  // mdns_add_answer succeeds exactly when the answer fits with its data cut; if it does not,
  // the packet is untouched unless even the cut length no longer fits the u16 it is summed in.
  lemma AnswerSucceedsExactly(o: Out, a: Answer)
    requires ValidOut(o) && o.woff <= |o.buf| && WritableAnswer(a)
    ensures AddAnswer(o, a).ok <==> o.woff + CutLength(a) <= |o.buf|
    ensures !AddAnswer(o, a).ok && CutLength(a) < 0x1_0000 ==> AddAnswer(o, a).out == o
  {
    hide AddQuestion, WriteDomain, TakeAt, Be16, Be32;
    if o.woff + CutLength(a) <= |o.buf| {
      AnswerParts(o, a);
    } else if CutLength(a) >= 0x1_0000 {
      OversizedDataFails(o, a);
    }
  }

  lemma OversizedDataFails(o: Out, a: Answer)
    requires ValidOut(o) && o.woff <= |o.buf| && WritableAnswer(a) && CutLength(a) >= 0x1_0000
    ensures !AddAnswer(o, a).ok
  {
    hide AddQuestion, WriteDomain, Be16, Be32;
    assert |Taken(a)| > OUTPACKET_SIZE;
    QuestionAppends(o, Question(a.rr, a.skip));
  }

  // The check tells whether the whole answer fits if and only if the data is shorter than
  // 2^16 bytes or would not fit even when cut.
  lemma FitIsChecked(o: Out, a: Answer)
    requires ValidOut(o) && o.woff <= |o.buf| && WritableAnswer(a)
    ensures (AddAnswer(o, a).ok <==> o.woff + NeededLength(a) <= |o.buf|)
            <==> (|Given(a)| < 0x1_0000 || o.woff + CutLength(a) > |o.buf|)
  {
    hide AddAnswer;
    AnswerSucceedsExactly(o, a);
    CutMeaning(a);
  }

  // 65540 bytes of data pass the check of any packet with room for four, which is all that is written.
  lemma LongDataAccepted(o: Out, rr: Rr, ttl: u32, data: seq<byte>)
    requires ValidOut(o) && Writable(rr.name) && o.woff + |rr.name| + 14 <= |o.buf| && |data| == 65540
    ensures var a := Answer(rr, false, ttl, Some(data), None);
            AddAnswer(o, a).ok && Taken(a) == data[..4] && o.woff + NeededLength(a) > |o.buf|
  {
    hide AddAnswer;
    AnswerSucceedsExactly(o, Answer(rr, false, ttl, Some(data), None));
  }
}
