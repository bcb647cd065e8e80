// The central law of ports/mdns/mdns.c as writer and reader: what a run of
// successful mdns_add_question and mdns_add_answer calls has written is read back
// exactly when every name was written cleanly, which tidy names always are.
module MdnsPacketRoundTrip {
  import opened Bytes
  import opened MdnsName
  import opened MdnsDecode
  import opened MdnsWriter
  import opened MdnsRoundTrip
  import opened MdnsPacket
  import opened MdnsPacketReader

  ghost function Filled(o: Out): seq<byte>
    requires o.woff <= |o.buf|
  {
    o.buf[..o.woff]
  }

  // The name of this question is written cleanly.
  ghost predicate QuestionClean(o: Out, question: Question)
    requires ValidOut(o) && o.woff <= |o.buf| && Writable(question.rr.name)
  {
    Clean(o, Filled(o), question.rr.name, question.skip)
  }

  // So are both names of this answer, and its data is not cut.  The bytes of the name inside
  // the data can only come from in front of the answer's fields.
  ghost predicate AnswerClean(o: Out, a: Answer)
    requires ValidOut(o) && WritableAnswer(a) && o.woff + CutLength(a) <= |o.buf|
  {
    AnswerParts(o, a);
    var head := AddQuestion(o, Question(a.rr, a.skip)).out;
    && QuestionClean(o, Question(a.rr, a.skip)) && |Given(a)| < 0x1_0000
    && (a.target.Some? ==>
          var loaded := Loaded(head, a);
          Clean(loaded, loaded.buf[..head.woff], a.target.value.bytes, a.target.value.skip))
  }

  // ------------------------------------------------------------- one step

  lemma HoldsShorter(p: seq<byte>, q: seq<byte>, o: Out, o1: Out, o2: Out)
    requires Holds(p, q, o, o2) && Appends(o, o1) && Appends(o1, o2)
    ensures Holds(p, q, o, o1)
  {}

  lemma FieldHeld(p: seq<byte>, q: seq<byte>, o: Out, o': Out, at: nat, data: seq<byte>)
    requires Holds(p, q, o, o') && FieldAt(o'.buf, at, data) && o.woff <= at && at + |data| <= o'.woff
    ensures FieldAt(p, at, data)
  {}

  // A question that was written is there in every later state p of the packet.
  lemma QuestionStep(o: Out, question: Question, rule: Rule, q: seq<byte>, p: seq<byte>)
    requires ValidOut(o) && Grows(q, o.buf) && Table(q, o.offsets, rule)
    requires Writable(question.rr.name) && Allowed(question.rr.name, rule)
    requires Clean(o, q, question.rr.name, question.skip) && o.woff + |question.rr.name| + 4 <= |o.buf|
    requires Holds(p, q, o, AddQuestion(o, question).out)
    ensures var w := AddQuestion(o, question);
            w.ok && Appends(o, w.out) && RrImage(p, o.woff, question.rr, w.out.woff) && Table(p, w.out.offsets, rule)
  {
    hide WriteDomain, AddQuestion, Table, Decodes, Be16, FieldAt, Grows, Holds, NameEnd, Allowed, Clean;
    var rr, w := question.rr, AddQuestion(o, question);
    QuestionAppends(o, question);
    var named := WriteDomain(o, rr.name, question.skip).out;
    HoldsShorter(p, q, o, named, w.out);
    var jumps := CleanWrite(o, q, rr.name, question.skip, rule, p);
    FieldHeld(p, q, o, w.out, named.woff, Be16(rr.rtype));
    FieldHeld(p, q, o, w.out, named.woff + 2, Be16(ClassField(rr)));
    assert RrImageWith(p, o.woff, rr, w.out.woff, jumps);
  }

  // The bytes of a finished answer, from those of its stages.
  ghost predicate AnswerBytes(o: Out, a: Answer, head: Out, loaded: Out, named: Out, p: seq<byte>) {
    && |p| == named.woff && o.woff <= |o.buf| && head.woff <= |loaded.buf|
    && head.woff + 6 <= named.woff < head.woff + 6 + 0x1_0000
    && Holds(p, o.buf[..o.woff], o, head)
    && Holds(loaded.buf[..head.woff], o.buf[..o.woff], o, head)
    && Holds(p, loaded.buf[..head.woff], loaded, named)
    && FieldAt(p, head.woff, Be32(a.ttl))
    && FieldAt(p, head.woff + 4, Be16(named.woff - (head.woff + 6)))
    && FieldAt(p, head.woff + 6, Taken(a))
  }

  lemma AnswerBytesHold(o: Out, a: Answer, head: Out, loaded: Out, named: Out)
    requires ValidOut(o) && o.woff <= |o.buf| && Appends(o, head) && Appends(head, loaded) && Appends(loaded, named)
    requires loaded.woff == head.woff + 6 + |Taken(a)| && named.woff - (head.woff + 6) < 0x1_0000
    requires FieldAt(loaded.buf, head.woff, Be32(a.ttl)) && FieldAt(loaded.buf, head.woff + 6, Taken(a))
    ensures var f := named.(buf := Put(named.buf, head.woff + 4, Be16(named.woff - (head.woff + 6))));
            Appends(o, f) && AnswerBytes(o, a, head, loaded, named, f.buf[..f.woff])
  {
    hide Be16, Be32, Taken;
  }

  ghost predicate AllowedAnswer(a: Answer, rule: Rule)
    requires WritableAnswer(a)
  {
    Allowed(a.rr.name, rule) && (a.target.Some? ==> Allowed(a.target.value.bytes, rule))
  }

  lemma AnswerStep(o: Out, a: Answer, rule: Rule)
    requires Inv(o, rule) && WritableAnswer(a) && AllowedAnswer(a, rule)
    requires o.woff + CutLength(a) <= |o.buf| && AnswerClean(o, a)
    ensures var w := AddAnswer(o, a).out;
            Appends(o, w) && Inv(w, rule) && AnswerImage(Filled(w), o.woff, a, w.woff)
  {
    hide AddAnswer, AddQuestion, WriteDomain, Loaded, Put, Table, Decodes, FieldAt, Be16, Be32, Taken, NameEnd;
    hide Allowed, Clean, Holds, RrImage;
    AnswerParts(o, a);
    var question := Question(a.rr, a.skip);
    var head := AddQuestion(o, question).out;
    var loaded := Loaded(head, a);
    LoadedFields(head, a);
    var named := Named(loaded, a);
    var w := AddAnswer(o, a).out;
    var q, early, p := o.buf[..o.woff], loaded.buf[..head.woff], Filled(w);
    NamedAppends(loaded, a);
    AnswerBytesHold(o, a, head, loaded, named);
    assert Grows(q, o.buf);
    QuestionStep(o, question, rule, q, p);
    QuestionStep(o, question, rule, q, early);
    assert Grows(early, loaded.buf);
    var jumps := 0;
    if a.target.Some? {
      jumps := CleanWrite(loaded, early, a.target.value.bytes, a.target.value.skip, rule, p);
    }
    assert AnswerImageWith(p, o.woff, a, head.woff, w.woff, jumps);
  }

  // ------------------------------------------------------- runs of writes

  // A new outpacket: nothing but the header's room is taken, the table is empty.
  function Fresh(buf: seq<byte>): (o: Out) {
    Out(buf, DNS_HDR, seq(NUM_DOMAIN_OFFSETS, _ => 0))
  }

  // Successive writes, up to the first that fails.
  function AddQuestions(o: Out, questions: seq<Asked>): (w: Written)
    requires ValidOut(o)
    ensures ValidOut(w.out)
    decreases |questions|
  {
    if questions == [] then Written(true, o)
    else
      var w := AddQuestion(o, questions[0]);
      if w.ok then AddQuestions(w.out, questions[1..]) else w
  }

  function AddAnswers(o: Out, answers: seq<Told>): (w: Written)
    requires ValidOut(o)
    ensures ValidOut(w.out)
    decreases |answers|
  {
    if answers == [] then Written(true, o)
    else
      var w := AddAnswer(o, answers[0]);
      if w.ok then AddAnswers(w.out, answers[1..]) else w
  }

  ghost predicate QuestionsAt(p: seq<byte>, offset: nat, questions: seq<Asked>, next: nat)
    decreases |questions|
  {
    if questions == [] then offset == next
    else exists mid :: RrImage(p, offset, questions[0].rr, mid) && QuestionsAt(p, mid, questions[1..], next)
  }

  ghost predicate AnswersAt(p: seq<byte>, offset: nat, answers: seq<Told>, next: nat)
    decreases |answers|
  {
    if answers == [] then offset == next
    else exists mid :: AnswerImage(p, offset, answers[0], mid) && AnswersAt(p, mid, answers[1..], next)
  }

  lemma AppendsGrows(o: Out, o': Out)
    requires ValidOut(o) && o.woff <= |o.buf| && Appends(o, o')
    ensures Grows(Filled(o), Filled(o'))
  {}

  lemma AppendsTransitive(o: Out, o1: Out, o2: Out)
    requires Appends(o, o1) && Appends(o1, o2)
    ensures Appends(o, o2)
  {}

  // Every name of a run of questions is written cleanly where the run has come to.
  ghost predicate QuestionsClean(o: Out, questions: seq<Asked>)
    requires ValidOut(o) && o.woff <= |o.buf| && AddQuestions(o, questions).ok
    decreases |questions|
  {
    if questions == [] then true
    else
      QuestionAppends(o, questions[0]);
      QuestionClean(o, questions[0]) && QuestionsClean(AddQuestion(o, questions[0]).out, questions[1..])
  }

  ghost predicate AnswersClean(o: Out, answers: seq<Told>)
    requires ValidOut(o) && o.woff <= |o.buf| && AddAnswers(o, answers).ok
    decreases |answers|
  {
    if answers == [] then true
    else
      AnswerAppends(o, answers[0]);
      AnswerClean(o, answers[0]) && AnswersClean(AddAnswer(o, answers[0]).out, answers[1..])
  }

  lemma AnswerAppends(o: Out, a: Answer)
    requires ValidOut(o) && o.woff <= |o.buf| && WritableAnswer(a) && AddAnswer(o, a).ok
    ensures o.woff + CutLength(a) <= |o.buf| && Appends(o, AddAnswer(o, a).out)
  {
    hide AddAnswer, AddQuestion, Named, Loaded, Be32, Be16, Taken, FieldAt, Put;
    AnswerSucceedsExactly(o, a);
    AnswerParts(o, a);
    var head := AddQuestion(o, Question(a.rr, a.skip)).out;
    LoadedFields(head, a);
    NamedAppends(Loaded(head, a), a);
  }

  lemma QuestionStepInv(o: Out, question: Question, rule: Rule)
    requires Inv(o, rule) && Writable(question.rr.name) && Allowed(question.rr.name, rule)
    requires AddQuestion(o, question).ok && QuestionClean(o, question)
    ensures var w := AddQuestion(o, question).out;
            Appends(o, w) && Inv(w, rule) && RrImage(Filled(w), o.woff, question.rr, w.woff)
  {
    hide AddQuestion, Table, RrImage, FieldAt, Be16, Clean;
    QuestionAppends(o, question);
    QuestionStep(o, question, rule, Filled(o), Filled(AddQuestion(o, question).out));
  }

  lemma {:induction false} QuestionRun(o: Out, questions: seq<Asked>, rule: Rule)
    requires Inv(o, rule) && forall i :: 0 <= i < |questions| ==> Allowed(questions[i].rr.name, rule)
    requires AddQuestions(o, questions).ok && QuestionsClean(o, questions)
    ensures var w := AddQuestions(o, questions).out;
            Appends(o, w) && Inv(w, rule) && QuestionsAt(Filled(w), o.woff, questions, w.woff)
    decreases |questions|
  {
    hide AddQuestion, Table, RrImage, Allowed, QuestionClean;
    if questions != [] {
      var next := AddQuestion(o, questions[0]).out;
      var w := AddQuestions(o, questions).out;
      QuestionStepInv(o, questions[0], rule);
      QuestionRun(next, questions[1..], rule);
      AppendsTransitive(o, next, w);
      AppendsGrows(next, w);
      RrImageGrows(Filled(next), Filled(w), o.woff, questions[0].rr, next.woff);
    }
  }

  lemma {:induction false} AnswerRun(o: Out, answers: seq<Told>, rule: Rule)
    requires Inv(o, rule) && forall i :: 0 <= i < |answers| ==> AllowedAnswer(answers[i], rule)
    requires AddAnswers(o, answers).ok && AnswersClean(o, answers)
    ensures var w := AddAnswers(o, answers).out;
            Appends(o, w) && Inv(w, rule) && AnswersAt(Filled(w), o.woff, answers, w.woff)
    decreases |answers|
  {
    hide AddAnswer, Table, AnswerImage, AllowedAnswer, AnswerClean, CutLength;
    if answers != [] {
      var next := AddAnswer(o, answers[0]).out;
      var w := AddAnswers(o, answers).out;
      AnswerAppends(o, answers[0]);
      AnswerStep(o, answers[0], rule);
      AnswerRun(next, answers[1..], rule);
      AppendsTransitive(o, next, w);
      AppendsGrows(next, w);
      AnswerImageGrows(Filled(next), Filled(w), o.woff, answers[0], next.woff);
    }
  }

  // ------------------------------------------------- reading a run back

  lemma {:induction false} QuestionsGrow(q: seq<byte>, p: seq<byte>, offset: nat, questions: seq<Asked>, next: nat)
    requires Grows(q, p) && QuestionsAt(q, offset, questions, next)
    ensures QuestionsAt(p, offset, questions, next)
    decreases |questions|
  {
    hide RrImage, Grows;
    if questions != [] {
      var mid: nat :| RrImage(q, offset, questions[0].rr, mid) && QuestionsAt(q, mid, questions[1..], next);
      RrImageGrows(q, p, offset, questions[0].rr, mid);
      QuestionsGrow(q, p, mid, questions[1..], next);
    }
  }

  lemma {:induction false} AnswersGrow(q: seq<byte>, p: seq<byte>, offset: nat, answers: seq<Told>, next: nat)
    requires Grows(q, p) && AnswersAt(q, offset, answers, next)
    ensures AnswersAt(p, offset, answers, next)
    decreases |answers|
  {
    hide AnswerImage, Grows;
    if answers != [] {
      var mid: nat :| AnswerImage(q, offset, answers[0], mid) && AnswersAt(q, mid, answers[1..], next);
      AnswerImageGrows(q, p, offset, answers[0], mid);
      AnswersGrow(q, p, mid, answers[1..], next);
    }
  }

  function RrsOf(questions: seq<Asked>): (rrs: seq<Rr>)
    ensures |rrs| == |questions|
  {
    seq(|questions|, i requires 0 <= i < |questions| => questions[i].rr)
  }

  lemma {:induction false} QuestionsReadBack(k: Packet, questions: seq<Asked>, next: nat)
    requires |k.pbuf| < 0xFFFF && k.questionsLeft == |questions| && k.offset <= |k.pbuf|
    requires QuestionsAt(k.pbuf, k.offset, questions, next)
    requires forall i :: 0 <= i < |questions| ==> questions[i].rr.klass < 0x8000
    ensures next <= |k.pbuf|
    ensures ReadQuestions(k) == (Some(RrsOf(questions)), k.(offset := next, questionsLeft := 0))
    decreases |questions|
  {
    hide RrImage, ReadRr;
    if questions == [] {
      assert RrsOf(questions) == [];
    } else {
      var mid: nat :| RrImage(k.pbuf, k.offset, questions[0].rr, mid) && QuestionsAt(k.pbuf, mid, questions[1..], next);
      RrImageReads(k.pbuf, k.offset, questions[0].rr, mid);
      QuestionsReadBack(k.(offset := mid, questionsLeft := k.questionsLeft - 1), questions[1..], next);
      assert RrsOf(questions) == [questions[0].rr] + RrsOf(questions[1..]);
    }
  }

  ghost predicate AllShown(p: seq<byte>, found: seq<Found>, answers: seq<Told>)
    requires |p| < 0x1_0000
  {
    |found| == |answers| && forall i :: 0 <= i < |found| ==> Shows(p, found[i], answers[i])
  }

  lemma {:induction false} AnswersReadBack(k: Packet, answers: seq<Told>, next: nat)
    requires |k.pbuf| < 0xFFFF && k.questionsLeft == 0 && k.answersLeft == |answers| && k.offset <= |k.pbuf|
    requires AnswersAt(k.pbuf, k.offset, answers, next)
    requires forall i :: 0 <= i < |answers| ==> answers[i].rr.klass < 0x8000 && |Given(answers[i])| < 0x1_0000
    ensures next <= |k.pbuf|
    ensures var r := ReadAnswers(k);
            r.0.Some? && AllShown(k.pbuf, r.0.value, answers) && r.1 == k.(offset := next, answersLeft := 0)
    decreases |answers|
  {
    hide AnswerImage, ReadFound, Shows;
    if answers != [] {
      var mid: nat :| AnswerImage(k.pbuf, k.offset, answers[0], mid) && AnswersAt(k.pbuf, mid, answers[1..], next);
      AnswerImageReads(k.pbuf, k.offset, answers[0], mid);
      AnswersReadBack(k.(offset := mid, answersLeft := k.answersLeft - 1), answers[1..], next);
    }
  }

  // ------------------------------------------------ what is not read back

  // The packet p holds what has been written, and perhaps more; its header is its own.
  ghost predicate Carries(p: seq<byte>, w: Out) {
    w.woff <= |w.buf| && Grows(w.buf[..w.woff], p) && |p| < 0xFFFF
  }

  lemma {:induction false} QuestionsAppend(o: Out, questions: seq<Asked>)
    requires ValidOut(o) && o.woff <= |o.buf| && AddQuestions(o, questions).ok
    ensures Appends(o, AddQuestions(o, questions).out)
    decreases |questions|
  {
    hide AddQuestion, Be16;
    if questions != [] {
      QuestionAppends(o, questions[0]);
      QuestionsAppend(AddQuestion(o, questions[0]).out, questions[1..]);
    }
  }

  lemma {:induction false} AnswersAppend(o: Out, answers: seq<Told>)
    requires ValidOut(o) && o.woff <= |o.buf| && AddAnswers(o, answers).ok
    ensures Appends(o, AddAnswers(o, answers).out)
    decreases |answers|
  {
    hide AddAnswer, CutLength;
    if answers != [] {
      AnswerAppends(o, answers[0]);
      AnswersAppend(AddAnswer(o, answers[0]).out, answers[1..]);
    }
  }

  lemma HoldsLater(r: seq<byte>, p: seq<byte>, q: seq<byte>, o: Out, o': Out)
    requires Holds(r, q, o, o') && Grows(r, p) && |p| < 0xFFFF && DNS_HDR <= o.woff
    ensures Holds(p, q, o, o')
  {}

  lemma NamedHeld(o: Out, named: Out, w: Out, p: seq<byte>)
    requires ValidOut(o) && o.woff <= |o.buf| && Appends(o, named) && Appends(named, w)
    requires Carries(p, w)
    ensures Grows(Filled(o), o.buf) && Holds(p, Filled(o), o, named)
  {}

  // A name that was not written cleanly is not read as itself.
  lemma QuestionMisread(o: Out, question: Question, p: seq<byte>)
    requires Inv(o, AnyNames) && Writable(question.rr.name) && AddQuestion(o, question).ok
    requires Carries(p, AddQuestion(o, question).out) && !QuestionClean(o, question)
    ensures var r := ReadRr(p, o.woff); r.Done? ==> r.value.name != question.rr.name
  {
    hide WriteDomain, AddQuestion, Table, Clean, Grows, Holds, Be16, ReadName, FieldAt, Appends, ReadsBack;
    QuestionAppends(o, question);
    var named := WriteDomain(o, question.rr.name, question.skip).out;
    NamedHeld(o, named, AddQuestion(o, question).out, p);
    ReadsBackExactly(o, Filled(o), question.rr.name, question.skip, p);
  }

  lemma QuestionReads(o: Out, question: Question, p: seq<byte>)
    requires Inv(o, AnyNames) && Writable(question.rr.name) && AddQuestion(o, question).ok
    requires Carries(p, AddQuestion(o, question).out) && QuestionClean(o, question)
    requires question.rr.klass < 0x8000
    ensures var w := AddQuestion(o, question).out;
            Inv(w, AnyNames) && ReadRr(p, o.woff) == Done(question.rr, w.woff)
  {
    hide AddQuestion, Table, RrImage, Grows, ReadRr, QuestionClean, Appends;
    QuestionStepInv(o, question, AnyNames);
    var w := AddQuestion(o, question).out;
    RrImageGrows(Filled(w), p, o.woff, question.rr, w.woff);
    RrImageReads(p, o.woff, question.rr, w.woff);
  }

  // One unclean name in a run of questions, and they are not read back.
  lemma {:induction false} QuestionsMisread(o: Out, questions: seq<Asked>, k: Packet)
    requires Inv(o, AnyNames) && AddQuestions(o, questions).ok && !QuestionsClean(o, questions)
    requires forall i :: 0 <= i < |questions| ==> questions[i].rr.klass < 0x8000
    requires Carries(k.pbuf, AddQuestions(o, questions).out)
    requires k.offset == o.woff && k.questionsLeft == |questions|
    ensures ReadQuestions(k).0 != Some(RrsOf(questions))
    decreases |questions|
  {
    hide AddQuestion, Table, ReadRr, QuestionClean, Carries, Appends, FieldAt, Be16, ReadQuestions, RrsOf, WriteDomain;
    var next := AddQuestion(o, questions[0]).out;
    QuestionAppends(o, questions[0]);
    QuestionsAppend(o, questions);
    QuestionsAppend(next, questions[1..]);
    StillCarries(o, AddQuestions(o, questions).out, k.pbuf);
    StillCarries(next, AddQuestions(o, questions).out, k.pbuf);
    RrsOfFirst(questions);
    FirstQuestion(k);
    if QuestionClean(o, questions[0]) {
      QuestionReads(o, questions[0], k.pbuf);
      QuestionsMisread(next, questions[1..], k.(offset := next.woff, questionsLeft := k.questionsLeft - 1));
    } else {
      QuestionMisread(o, questions[0], k.pbuf);
    }
    SameStart(questions[0].rr, RrsOf(questions[1..]));
  }

  lemma SameStart<T>(x: T, xs: seq<T>)
    ensures forall y: T, ys: seq<T> :: [y] + ys == [x] + xs ==> y == x && ys == xs
  {
    forall y: T, ys: seq<T> | [y] + ys == [x] + xs ensures y == x && ys == xs {
      assert ([y] + ys)[0] == y && ([y] + ys)[1..] == ys;
      assert ([x] + xs)[0] == x && ([x] + xs)[1..] == xs;
    }
  }

  lemma RrsOfFirst(questions: seq<Asked>)
    requires questions != []
    ensures RrsOf(questions) == [questions[0].rr] + RrsOf(questions[1..])
  {}

  // One turn of the question loop
  lemma FirstQuestion(k: Packet)
    requires |k.pbuf| < 0xFFFF && k.offset <= |k.pbuf| && k.questionsLeft > 0
    ensures match ReadRr(k.pbuf, k.offset)
            case Failed(_) => ReadQuestions(k).0.None?
            case Done(rr, next) =>
              var rest := ReadQuestions(k.(offset := next, questionsLeft := k.questionsLeft - 1)).0;
              ReadQuestions(k).0 == if rest.None? then None else Some([rr] + rest.value)
  {
    hide ReadRr;
  }

  lemma ValidAfter(o: Out, w: Out)
    requires Appends(o, w)
    ensures ValidOut(w) && o.woff <= w.woff <= |w.buf| == |o.buf|
  {}

  // The length field lies behind the head.
  lemma PatchedAppends(head: Out, loaded: Out, named: Out, at: nat, data: seq<byte>)
    requires Appends(head, loaded) && Appends(loaded, named)
    requires head.woff <= at && at + |data| <= named.woff
    ensures Appends(head, named.(buf := Put(named.buf, at, data)))
  {}

  lemma StillCarries(o: Out, w: Out, p: seq<byte>)
    requires ValidOut(o) && o.woff <= |o.buf| && Appends(o, w) && Carries(p, w)
    ensures Carries(p, o) && o.woff <= |p|
  {}

  // The same for an answer, whose data may also have been cut.
  lemma AnswerMisread(o: Out, a: Answer, p: seq<byte>)
    requires Inv(o, AnyNames) && WritableAnswer(a) && AddAnswer(o, a).ok && o.woff + CutLength(a) <= |o.buf|
    requires Carries(p, AddAnswer(o, a).out) && a.rr.klass < 0x8000 && !AnswerClean(o, a)
    ensures var r := ReadFound(p, o.woff); r.Done? ==> !Shows(p, r.value, a)
  {
    hide AddAnswer, AddQuestion, Table, Clean, Grows, ReadRr, ReadName, ReadField16, ReadField32, Loaded, Appends;
    hide Taken, WriteDomain;
    AnswerParts(o, a);
    var question := Question(a.rr, a.skip);
    var head := AddQuestion(o, question).out;
    HeadGrows(o, a, p);
    if !QuestionClean(o, question) {
      QuestionMisread(o, question, p);
    } else if |Given(a)| < 0x1_0000 {
      TargetMisread(o, a, p);
    }
  }

  lemma HeadGrows(o: Out, a: Answer, p: seq<byte>)
    requires ValidOut(o) && o.woff <= |o.buf| && WritableAnswer(a) && o.woff + CutLength(a) <= |o.buf|
    requires Carries(p, AddAnswer(o, a).out)
    ensures var head := AddQuestion(o, Question(a.rr, a.skip));
            head.ok && Appends(o, head.out) && Carries(p, head.out) && head.out.woff <= |p|
  {
    hide AddAnswer, AddQuestion, Named, Loaded, Taken, WriteDomain, Be16, Be32, Put, FieldAt;
    AnswerParts(o, a);
    QuestionAppends(o, Question(a.rr, a.skip));
    var head := AddQuestion(o, Question(a.rr, a.skip)).out;
    LoadedFields(head, a);
    NamedAppends(Loaded(head, a), a);
    var named := Named(Loaded(head, a), a);
    PatchedAppends(head, Loaded(head, a), named, head.woff + 4, Be16(named.woff - (head.woff + 6)));
    StillCarries(head, AddAnswer(o, a).out, p);
  }

  // The names of the table lie in front of the answer's fields.
  lemma EarlyTable(o: Out, a: Answer, head: Out, loaded: Out, rule: Rule)
    requires Inv(o, rule) && Writable(a.rr.name) && Allowed(a.rr.name, rule) && QuestionClean(o, Question(a.rr, a.skip))
    requires o.woff + |a.rr.name| + 4 <= |o.buf| && head == AddQuestion(o, Question(a.rr, a.skip)).out
    requires ValidOut(head) && head.woff + 6 + |Taken(a)| <= |head.buf| && loaded == Loaded(head, a)
    ensures head.woff <= |loaded.buf|
    ensures var early := loaded.buf[..head.woff]; Grows(early, loaded.buf) && Table(early, loaded.offsets, rule)
  {
    hide AddQuestion, Table, Clean, Loaded, FieldAt, Be16, Be32, RrImage, WriteDomain, Taken, Allowed;
    QuestionAppends(o, Question(a.rr, a.skip));
    LoadedFields(head, a);
    var early := loaded.buf[..head.woff];
    assert Grows(Filled(o), o.buf) && Grows(early, loaded.buf);
    QuestionStep(o, Question(a.rr, a.skip), rule, Filled(o), early);
  }

  // The owner's name is clean, the name inside the data is not: the header is read, that name is not.
  lemma TargetMisread(o: Out, a: Answer, p: seq<byte>)
    requires Inv(o, AnyNames) && WritableAnswer(a) && AddAnswer(o, a).ok && o.woff + CutLength(a) <= |o.buf|
    requires Carries(p, AddAnswer(o, a).out) && a.rr.klass < 0x8000
    requires QuestionClean(o, Question(a.rr, a.skip)) && |Given(a)| < 0x1_0000 && !AnswerClean(o, a)
    ensures var r := ReadFound(p, o.woff); r.Done? ==> !Shows(p, r.value, a)
  {
    hide AddAnswer, AddQuestion, Table, Clean, Grows, ReadRr, ReadName, ReadField16, ReadField32, Loaded, Appends;
    hide Taken, WriteDomain, Holds, FieldAt, Be16, Be32, Put, RrImage, ReadsBack;
    CutMeaning(a);
    AnswerParts(o, a);
    var question := Question(a.rr, a.skip);
    var head := AddQuestion(o, question).out;
    var loaded := Loaded(head, a);
    LoadedFields(head, a);
    ValidAfter(head, loaded);
    var named := Named(loaded, a);
    var w := AddAnswer(o, a).out;
    var target := a.target.value;
    HeadGrows(o, a, p);
    QuestionReads(o, question, p);
    NamedAppends(loaded, a);
    AnswerBytesHold(o, a, head, loaded, named);
    var early := loaded.buf[..head.woff];
    FieldGrows(Filled(w), p, head.woff, Be32(a.ttl));
    FieldGrows(Filled(w), p, head.woff + 4, Be16(named.woff - (head.woff + 6)));
    FieldRead32(p, head.woff, a.ttl);
    FieldRead16(p, head.woff + 4, named.woff - (head.woff + 6));
    assert ReadFound(p, o.woff).value == Found(a.rr, a.ttl, named.woff - (head.woff + 6), head.woff + 6);
    HoldsLater(Filled(w), p, early, loaded, named);
    EarlyTable(o, a, head, loaded, AnyNames);
    ReadsBackExactly(loaded, early, target.bytes, target.skip, p);
  }

  // One turn of the loop over the answers
  lemma FirstAnswer(k: Packet)
    requires |k.pbuf| < 0xFFFF && k.offset <= |k.pbuf| && k.questionsLeft == 0 && k.answersLeft > 0
    ensures match ReadFound(k.pbuf, k.offset)
            case Failed(_) => ReadAnswers(k).0.None?
            case Done(found, next) =>
              var rest := ReadAnswers(k.(offset := next, answersLeft := k.answersLeft - 1)).0;
              ReadAnswers(k).0 == if rest.None? then None else Some([found] + rest.value)
  {
    hide ReadFound;
  }

  lemma AnswerReads(o: Out, a: Answer, p: seq<byte>)
    requires Inv(o, AnyNames) && WritableAnswer(a) && AddAnswer(o, a).ok && o.woff + CutLength(a) <= |o.buf|
    requires Carries(p, AddAnswer(o, a).out) && AnswerClean(o, a) && a.rr.klass < 0x8000
    ensures var w := AddAnswer(o, a).out; var r := ReadFound(p, o.woff);
            Inv(w, AnyNames) && r.Done? && r.next == w.woff
  {
    hide AddAnswer, Table, AnswerImage, Grows, ReadFound, AnswerClean, Appends, CutLength, Shows;
    AnswerStep(o, a, AnyNames);
    var w := AddAnswer(o, a).out;
    AnswerImageGrows(Filled(w), p, o.woff, a, w.woff);
    AnswerImageReads(p, o.woff, a, w.woff);
  }

  ghost predicate AnswersShown(p: seq<byte>, r: Option<seq<Found>>, answers: seq<Told>)
    requires |p| < 0x1_0000
  {
    r.Some? && AllShown(p, r.value, answers)
  }

  lemma ShownFirst(p: seq<byte>, found: Found, rest: seq<Found>, answers: seq<Told>)
    requires |p| < 0x1_0000 && answers != [] && AllShown(p, [found] + rest, answers)
    ensures Shows(p, found, answers[0]) && AllShown(p, rest, answers[1..])
  {
    hide Shows;
    assert ([found] + rest)[0] == found && ([found] + rest)[1..] == rest;
    forall i | 0 <= i < |rest| ensures Shows(p, rest[i], answers[1..][i]) {
      assert ([found] + rest)[i + 1] == rest[i];
    }
  }

  // One unclean name or cut data in a run of answers, and they are not read back.
  lemma {:induction false} AnswersMisread(o: Out, answers: seq<Told>, k: Packet)
    requires Inv(o, AnyNames) && AddAnswers(o, answers).ok && !AnswersClean(o, answers)
    requires forall i :: 0 <= i < |answers| ==> answers[i].rr.klass < 0x8000
    requires Carries(k.pbuf, AddAnswers(o, answers).out)
    requires k.offset == o.woff && k.questionsLeft == 0 && k.answersLeft == |answers|
    ensures !AnswersShown(k.pbuf, ReadAnswers(k).0, answers)
    decreases |answers|
  {
    hide AddAnswer, Table, ReadFound, AnswerClean, Carries, Appends, ReadAnswers, CutLength, AllShown, Shows;
    var next := AddAnswer(o, answers[0]).out;
    AnswerAppends(o, answers[0]);
    ValidAfter(o, next);
    AnswersAppend(o, answers);
    AnswersAppend(next, answers[1..]);
    CarriesShort(k.pbuf, AddAnswers(o, answers).out);
    StillCarries(o, AddAnswers(o, answers).out, k.pbuf);
    StillCarries(next, AddAnswers(o, answers).out, k.pbuf);
    FirstAnswer(k);
    var r := ReadFound(k.pbuf, o.woff);
    if AnswerClean(o, answers[0]) {
      AnswerReads(o, answers[0], k.pbuf);
      AnswersMisread(next, answers[1..], k.(offset := next.woff, answersLeft := k.answersLeft - 1));
    } else {
      AnswerMisread(o, answers[0], k.pbuf);
    }
    if AnswersShown(k.pbuf, ReadAnswers(k).0, answers) {
      var rest := ReadAnswers(k.(offset := r.next, answersLeft := k.answersLeft - 1)).0;
      ShownFirst(k.pbuf, r.value, rest.value, answers);
    }
  }

  lemma CarriesShort(p: seq<byte>, w: Out)
    requires Carries(p, w)
    ensures |p| < 0xFFFF
  {}

  // --------------------------------------------------------- the theorems

  // Every name is written cleanly where the run has come to, and no data is cut.
  ghost predicate RunClean(buf: seq<byte>, questions: seq<Asked>, answers: seq<Told>)
    requires |buf| == OUTPACKET_SIZE && AddQuestions(Fresh(buf), questions).ok
    requires AddAnswers(AddQuestions(Fresh(buf), questions).out, answers).ok
  {
    QuestionsAppend(Fresh(buf), questions);
    QuestionsClean(Fresh(buf), questions) && AnswersClean(AddQuestions(Fresh(buf), questions).out, answers)
  }

  // Clean questions are read back, up to where the writer stopped.
  lemma QuestionsBack(o: Out, questions: seq<Asked>, p: seq<byte>, answersLeft: nat)
    requires Inv(o, AnyNames) && AddQuestions(o, questions).ok && QuestionsClean(o, questions)
    requires forall i :: 0 <= i < |questions| ==> questions[i].rr.klass < 0x8000
    requires Carries(p, AddQuestions(o, questions).out)
    ensures var w := AddQuestions(o, questions).out;
            && Inv(w, AnyNames) && w.woff <= |p|
            && ReadQuestions(Packet(p, o.woff, |questions|, answersLeft))
               == (Some(RrsOf(questions)), Packet(p, w.woff, 0, answersLeft))
  {
    hide AddQuestions, QuestionsAt, ReadQuestions, Table, QuestionsClean;
    var w := AddQuestions(o, questions).out;
    QuestionRun(o, questions, AnyNames);
    QuestionsGrow(Filled(w), p, o.woff, questions, w.woff);
    QuestionsReadBack(Packet(p, o.woff, |questions|, answersLeft), questions, w.woff);
  }

  lemma AnswersBack(o: Out, answers: seq<Told>, p: seq<byte>)
    requires Inv(o, AnyNames) && AddAnswers(o, answers).ok && AnswersClean(o, answers) && o.woff <= |p|
    requires forall i :: 0 <= i < |answers| ==> answers[i].rr.klass < 0x8000
    requires Carries(p, AddAnswers(o, answers).out)
    ensures var r := ReadAnswers(Packet(p, o.woff, 0, |answers|));
            AnswersShown(p, r.0, answers) && r.1 == Packet(p, AddAnswers(o, answers).out.woff, 0, 0)
  {
    hide AddAnswers, AnswersAt, ReadAnswers, Table, AnswersClean, AllShown;
    var w := AddAnswers(o, answers).out;
    AnswerRun(o, answers, AnyNames);
    UncutData(o, answers);
    AnswersGrow(Filled(w), p, o.woff, answers, w.woff);
    AnswersReadBack(Packet(p, o.woff, 0, |answers|), answers, w.woff);
  }

  lemma {:induction false} UncutData(o: Out, answers: seq<Told>)
    requires ValidOut(o) && o.woff <= |o.buf| && AddAnswers(o, answers).ok && AnswersClean(o, answers)
    ensures forall i :: 0 <= i < |answers| ==> |Given(answers[i])| < 0x1_0000
    decreases |answers|
  {
    hide AddAnswer, Clean, CutLength, Given, Loaded, QuestionClean;
    if answers != [] {
      AnswerAppends(o, answers[0]);
      UncutData(AddAnswer(o, answers[0]).out, answers[1..]);
      assert forall i :: 0 < i < |answers| ==> answers[i] == answers[1..][i - 1];
    }
  }

  // Any questions and answers that all fit one fresh packet are read back from any packet
  // that carries the written bytes behind its header, every question equal and in order,
  // every answer with its class, flag, TTL and rdata, names inside rdata included, if and only
  // if their names were written cleanly and no data is cut.
  lemma PacketRoundTrip(buf: seq<byte>, questions: seq<Asked>, answers: seq<Told>, p: seq<byte>)
    requires |buf| == OUTPACKET_SIZE
    requires forall i :: 0 <= i < |questions| ==> questions[i].rr.klass < 0x8000
    requires forall i :: 0 <= i < |answers| ==> answers[i].rr.klass < 0x8000
    requires AddQuestions(Fresh(buf), questions).ok
    requires AddAnswers(AddQuestions(Fresh(buf), questions).out, answers).ok
    requires Carries(p, AddAnswers(AddQuestions(Fresh(buf), questions).out, answers).out)
    ensures var asked := ReadQuestions(Packet(p, DNS_HDR, |questions|, |answers|));
            var answered := ReadAnswers(asked.1);
            && (asked.0 == Some(RrsOf(questions)) && AnswersShown(p, answered.0, answers)
                <==> RunClean(buf, questions, answers))
            && (RunClean(buf, questions, answers) ==>
                  var o := AddAnswers(AddQuestions(Fresh(buf), questions).out, answers).out;
                  answered.1 == Packet(p, o.woff, 0, 0))
  {
    hide AddQuestions, AddAnswers, ReadQuestions, ReadAnswers, Table, Carries, Appends, AnswersShown, QuestionsClean;
    hide AnswersClean, RrsOf;
    var o, k := Fresh(buf), Packet(p, DNS_HDR, |questions|, |answers|);
    var asked := AddQuestions(o, questions).out;
    FreshInv(buf, AnyNames);
    CarriesShort(p, AddAnswers(asked, answers).out);
    QuestionsAppend(o, questions);
    ValidAfter(o, asked);
    AnswersAppend(asked, answers);
    StillCarries(asked, AddAnswers(asked, answers).out, p);
    if !QuestionsClean(o, questions) {
      QuestionsMisread(o, questions, k);
    } else {
      QuestionsBack(o, questions, p, |answers|);
      if AnswersClean(asked, answers) {
        AnswersBack(asked, answers, p);
      } else {
        AnswersMisread(asked, answers, Packet(p, asked.woff, 0, |answers|));
      }
    }
  }

  // ----------------------------------------------------------- tidy names

  // A tidy name of at most five labels, or of six when the write starts with one of them.
  ghost predicate TidyName(o: Out, d: seq<byte>, skip: bool, m: nat)
    requires ValidOut(o)
  {
    && Writable(d) && Allowed(d, Tidy(m))
    && (Labels(d) <= MAX_JUMPS || (Labels(d) == MAX_JUMPS + 1 && BestCut(o, d, skip).writelen > 0))
  }

  ghost predicate TidyAnswer(o: Out, a: Answer, m: nat)
    requires ValidOut(o) && WritableAnswer(a) && o.woff + CutLength(a) <= |o.buf|
  {
    AnswerParts(o, a);
    && TidyName(o, a.rr.name, a.skip, m) && |Given(a)| < 0x1_0000
    && (a.target.Some? ==>
          var loaded := Loaded(AddQuestion(o, Question(a.rr, a.skip)).out, a);
          TidyName(loaded, a.target.value.bytes, a.target.value.skip, m))
  }

  // So are the names of a whole run.
  ghost predicate QuestionsTidy(o: Out, questions: seq<Asked>, m: nat)
    requires ValidOut(o) && o.woff <= |o.buf| && AddQuestions(o, questions).ok
    decreases |questions|
  {
    if questions == [] then true
    else
      QuestionAppends(o, questions[0]);
      && TidyName(o, questions[0].rr.name, questions[0].skip, m)
      && QuestionsTidy(AddQuestion(o, questions[0]).out, questions[1..], m)
  }

  ghost predicate AnswersTidy(o: Out, answers: seq<Told>, m: nat)
    requires ValidOut(o) && o.woff <= |o.buf| && AddAnswers(o, answers).ok
    decreases |answers|
  {
    if answers == [] then true
    else
      AnswerAppends(o, answers[0]);
      TidyAnswer(o, answers[0], m) && AnswersTidy(AddAnswer(o, answers[0]).out, answers[1..], m)
  }

  lemma TidyNameClean(o: Out, q: seq<byte>, d: seq<byte>, skip: bool, m: nat)
    requires ValidOut(o) && Grows(q, o.buf) && |q| <= o.woff <= |o.buf| && Table(q, o.offsets, Tidy(m))
    requires TidyName(o, d, skip, m) && o.woff + |d| <= |o.buf|
    ensures Clean(o, q, d, skip)
  {
    hide Clean, Table, Grows;
    TidyIsClean(o, q, d, skip, m);
  }

  lemma {:induction false} TidyQuestionsClean(o: Out, questions: seq<Asked>, m: nat)
    requires Inv(o, Tidy(m)) && AddQuestions(o, questions).ok && QuestionsTidy(o, questions, m)
    ensures QuestionsClean(o, questions) && Inv(AddQuestions(o, questions).out, Tidy(m))
    decreases |questions|
  {
    hide AddQuestion, Table, Clean, RrImage, BestCut, Separated, Appends, FieldAt, Be16, WriteDomain;
    if questions != [] {
      QuestionAppends(o, questions[0]);
      TidyNameClean(o, Filled(o), questions[0].rr.name, questions[0].skip, m);
      QuestionStepInv(o, questions[0], Tidy(m));
      TidyQuestionsClean(AddQuestion(o, questions[0]).out, questions[1..], m);
    }
  }

  lemma TidyAnswerClean(o: Out, a: Answer, m: nat)
    requires Inv(o, Tidy(m)) && WritableAnswer(a) && o.woff + CutLength(a) <= |o.buf| && TidyAnswer(o, a, m)
    ensures AnswerClean(o, a) && AllowedAnswer(a, Tidy(m))
  {
    hide AddAnswer, AddQuestion, Table, Clean, BestCut, Separated, Loaded, Appends, FieldAt, Taken, Be16, Be32;
    hide WriteDomain;
    AnswerParts(o, a);
    QuestionAppends(o, Question(a.rr, a.skip));
    TidyNameClean(o, Filled(o), a.rr.name, a.skip, m);
    var head := AddQuestion(o, Question(a.rr, a.skip)).out;
    LoadedFields(head, a);
    EarlyTable(o, a, head, Loaded(head, a), Tidy(m));
    if a.target.Some? {
      var loaded := Loaded(head, a);
      ValidAfter(head, loaded);
      TidyNameClean(loaded, loaded.buf[..head.woff], a.target.value.bytes, a.target.value.skip, m);
    }
  }

  lemma {:induction false} TidyAnswersClean(o: Out, answers: seq<Told>, m: nat)
    requires Inv(o, Tidy(m)) && AddAnswers(o, answers).ok && AnswersTidy(o, answers, m)
    ensures AnswersClean(o, answers)
    decreases |answers|
  {
    hide AddAnswer, Table, AnswerImage, AnswerClean, TidyAnswer, AllowedAnswer, CutLength, Appends;
    if answers != [] {
      AnswerAppends(o, answers[0]);
      TidyAnswerClean(o, answers[0], m);
      AnswerStep(o, answers[0], Tidy(m));
      TidyAnswersClean(AddAnswer(o, answers[0]).out, answers[1..], m);
    }
  }

  // A run with tidy names, and data that is not cut, is read back.
  lemma TidyRunClean(buf: seq<byte>, questions: seq<Asked>, answers: seq<Told>, m: nat)
    requires |buf| == OUTPACKET_SIZE && AddQuestions(Fresh(buf), questions).ok
    requires QuestionsTidy(Fresh(buf), questions, m)
    requires var o := AddQuestions(Fresh(buf), questions).out;
             o.woff <= |o.buf| && AddAnswers(o, answers).ok && AnswersTidy(o, answers, m)
    ensures RunClean(buf, questions, answers)
  {
    hide AddQuestions, AddAnswers, QuestionsTidy, AnswersTidy, QuestionsClean, AnswersClean, Table;
    FreshInv(buf, Tidy(m));
    TidyQuestionsClean(Fresh(buf), questions, m);
    TidyAnswersClean(AddQuestions(Fresh(buf), questions).out, answers, m);
  }

  // Names of at most five labels are tidy wherever they are written.
  ghost predicate ShortName(d: seq<byte>, m: nat) {
    Writable(d) && Allowed(d, Tidy(m)) && Labels(d) <= MAX_JUMPS
  }

  lemma {:induction false} ShortQuestionsTidy(o: Out, questions: seq<Asked>, m: nat)
    requires ValidOut(o) && o.woff <= |o.buf| && AddQuestions(o, questions).ok
    requires forall i :: 0 <= i < |questions| ==> ShortName(questions[i].rr.name, m)
    ensures QuestionsTidy(o, questions, m)
    decreases |questions|
  {
    hide AddQuestion, BestCut, Separated, FieldAt, Be16, WriteDomain;
    if questions != [] {
      QuestionAppends(o, questions[0]);
      ShortQuestionsTidy(AddQuestion(o, questions[0]).out, questions[1..], m);
    }
  }

  lemma {:induction false} ShortAnswersTidy(o: Out, answers: seq<Told>, m: nat)
    requires ValidOut(o) && o.woff <= |o.buf| && AddAnswers(o, answers).ok
    requires forall i :: 0 <= i < |answers| ==>
               && ShortName(answers[i].rr.name, m) && |Given(answers[i])| < 0x1_0000
               && (answers[i].target.Some? ==> ShortName(answers[i].target.value.bytes, m))
    ensures AnswersTidy(o, answers, m)
    decreases |answers|
  {
    hide AddAnswer, BestCut, Separated, CutLength, Given, Loaded, AddQuestion;
    if answers != [] {
      AnswerAppends(o, answers[0]);
      ShortAnswersTidy(AddAnswer(o, answers[0]).out, answers[1..], m);
    }
  }

  lemma FreshInv(buf: seq<byte>, rule: Rule)
    requires |buf| == OUTPACKET_SIZE
    ensures Inv(Fresh(buf), rule)
  {}
}
