// mdns_handle_question of ports/mdns/mdns.c: the replies left after the known
// answers have been taken off are exactly those that are due.
module MdnsReplies {
  import opened Bytes
  import opened MdnsName
  import opened MdnsPacket
  import opened MdnsPacketReader
  import opened MdnsInPacket
  import opened MdnsResponder
  import opened MdnsRecords

  // What a question selects: for the host, or for one of its services.
  function Check(h: Host, s: Option<Service>, rr: Asking): set<Reply> {
    if s.None? then CheckHost(h, rr) else CheckService(s.value, rr)
  }

  function Wanted(h: Host, s: Option<Service>, questions: seq<Asking>): set<Reply> {
    if questions == [] then {}
    else Wanted(h, s, questions[..|questions| - 1]) + Check(h, s, questions[|questions| - 1])
  }

  // A reply set once a known answer has been looked at.
  function Without(h: Host, s: Option<Service>, p: seq<byte>, f: Known, replies: set<Reply>): set<Reply>
    requires |p| < 0x1_0000
  {
    set r | r in replies && !Knows(h, s, p, f, r)
  }

  function Left(h: Host, s: Option<Service>, p: seq<byte>, answers: seq<Known>, replies: set<Reply>): set<Reply>
    requires |p| < 0x1_0000
  {
    if answers == [] then replies
    else Without(h, s, p, answers[|answers| - 1], Left(h, s, p, answers[..|answers| - 1], replies))
  }

  // A reply is due when a question asks for it and no known answer gives it.
  ghost predicate Due(h: Host, s: Option<Service>, p: seq<byte>, questions: seq<Asking>, answers: seq<Known>, r: Reply)
    requires |p| < 0x1_0000
  {
    && (exists i :: 0 <= i < |questions| && AsksFor(h, s, questions[i], r))
    && (forall j :: 0 <= j < |answers| ==> !Gives(h, s, p, answers[j], r))
  }

  lemma {:induction false} WantedMeans(h: Host, s: Option<Service>, questions: seq<Asking>, r: Reply)
    ensures r in Wanted(h, s, questions) <==> exists i :: 0 <= i < |questions| && r in Check(h, s, questions[i])
    decreases |questions|
  {
    hide Check;
    if questions != [] {
      var n := |questions| - 1;
      WantedMeans(h, s, questions[..n], r);
      if r in Check(h, s, questions[n]) {
      } else if i: int :| 0 <= i < n && r in Check(h, s, questions[..n][i]) {
        assert questions[i] == questions[..n][i];
      }
    }
  }

  lemma {:induction false} LeftMeans(
    h: Host, s: Option<Service>, p: seq<byte>, answers: seq<Known>, replies: set<Reply>, r: Reply)
    requires |p| < 0x1_0000
    ensures r in Left(h, s, p, answers, replies) <==>
            r in replies && forall j :: 0 <= j < |answers| ==> !Knows(h, s, p, answers[j], r)
    decreases |answers|
  {
    hide Knows;
    if answers != [] {
      var n := |answers| - 1;
      LeftMeans(h, s, p, answers[..n], replies, r);
      assert forall j :: 0 <= j < n ==> answers[..n][j] == answers[j];
    }
  }

  lemma CheckMeans(h: Host, s: Option<Service>, rr: Asking, r: Reply)
    ensures r in Check(h, s, rr) <==> AsksFor(h, s, rr, r)
  {
    hide CheckHost, CheckService, AsksFor;
    if s.None? {
      HostSelects(h, rr, r);
    } else {
      ServiceSelects(h, s.value, rr, r);
    }
  }

  // A known answer takes off exactly what it gives.
  lemma WithoutMeans(h: Host, s: Option<Service>, p: seq<byte>, f: Known, replies: set<Reply>, r: Reply)
    requires |p| < 0x1_0000 && forall q :: q in replies ==> BelongsTo(q, s)
    ensures r in Without(h, s, p, f, replies) <==> r in replies && !Gives(h, s, p, f, r)
  {
    hide Knows, Gives, BelongsTo;
    if r in replies {
      KnowsMeans(h, s, p, f, r);
    }
  }

  lemma AskedBelongs(h: Host, s: Option<Service>, rr: Rr, r: Reply)
    requires AsksFor(h, s, rr, r)
    ensures BelongsTo(r, s)
  {
    hide Called, OwnLabels;
  }

  // The replies left are those selected by some question and justified by the
  // lack of any known answer with their name, type, class, data and lifetime.
  lemma RepliesAreDue(h: Host, s: Option<Service>, p: seq<byte>, questions: seq<Asking>, answers: seq<Known>, r: Reply)
    requires |p| < 0x1_0000
    ensures r in Left(h, s, p, answers, Wanted(h, s, questions)) <==> Due(h, s, p, questions, answers, r)
  {
    hide Knows, Check, AsksFor, Gives, BelongsTo;
    WantedMeans(h, s, questions, r);
    LeftMeans(h, s, p, answers, Wanted(h, s, questions), r);
    forall i | 0 <= i < |questions| ensures r in Check(h, s, questions[i]) <==> AsksFor(h, s, questions[i], r) {
      CheckMeans(h, s, questions[i], r);
    }
    if i :| 0 <= i < |questions| && AsksFor(h, s, questions[i], r) {
      AskedBelongs(h, s, questions[i], r);
      forall j | 0 <= j < |answers| ensures Knows(h, s, p, answers[j], r) <==> Gives(h, s, p, answers[j], r) {
        KnowsMeans(h, s, p, answers[j], r);
      }
    }
  }

  // The reply masks hold exactly what is due.
  ghost predicate AllDue(h: Host, p: seq<byte>, questions: seq<Asking>, answers: seq<Known>, reply: Replies)
    requires |p| < 0x1_0000
  {
    && (forall r :: r in reply.host <==> Due(h, None, p, questions, answers, r)) && |reply.services| == |h.services|
    && forall i, r :: 0 <= i < |h.services| ==>
         (r in reply.services[i] <==> h.services[i].Some? && Due(h, h.services[i], p, questions, answers, r))
  }

  lemma RemainingIsDue(h: Host, p: seq<byte>, questions: seq<Asking>, answers: seq<Known>, reply: Replies)
    requires |p| < 0x1_0000 && Remaining(h, p, questions, answers, reply)
    ensures AllDue(h, p, questions, answers, reply)
  {
    hide Due, Left, Wanted;
    forall r ensures r in reply.host <==> Due(h, None, p, questions, answers, r) {
      RepliesAreDue(h, None, p, questions, answers, r);
    }
    forall i, r | 0 <= i < |h.services|
      ensures r in reply.services[i] <==> h.services[i].Some? && Due(h, h.services[i], p, questions, answers, r)
    {
      RepliesAreDue(h, h.services[i], p, questions, answers, r);
    }
  }

  // ------------------------------------------------------------ the program

  const HOST_REPLIES: set<Reply> := {HostA, HostPtr}
  const SERVICE_REPLIES: set<Reply> := {TypePtr, NamePtr, Srv, Txt}

  // The part of the answer loop for the host
  method SuppressHost(h: Host, p: seq<byte>, f: Known, replies: set<Reply>) returns (left: set<Reply>)
    requires |p| < 0x1_0000 && replies <= HOST_REPLIES && (h.address == [0, 0, 0, 0] ==> replies == {})
    ensures left == Without(h, None, p, f, replies)
    ensures forall r :: r in left <==> r in replies && !Gives(h, None, p, f, r)
  {
    hide NamedAt, SameData, DomainEq, HostName, ReverseName, Gives;
    forall r ensures r in Without(h, None, p, f, replies) <==> r in replies && !Gives(h, None, p, f, r) {
      WithoutMeans(h, None, p, f, replies, r);
    }
    left := replies;
    if f.rr.rtype == TYPE_ANY || f.rr.klass == CLASS_ANY {
      return;
    }
    var match' := left * CheckHost(h, f.rr);
    if match' != {} && f.ttl > h.ttl / 2 {
      if f.rr.rtype == TYPE_PTR {
        if NamedAt(p, f.rdOffset, HostName(h)) {
          if HostPtr in match' {
            left := left - {HostPtr};
          }
        }
      } else if HostA in match' {
        if SameData(p, f, h.address) {
          left := left - {HostA};
        }
      }
    }
  }

  // The part of the answer loop for one service
  method SuppressService(h: Host, s: Service, p: seq<byte>, f: Known, replies: set<Reply>) returns (left: set<Reply>)
    requires |p| < 0x1_0000 && replies <= SERVICE_REPLIES
    ensures left == Without(h, Some(s), p, f, replies)
    ensures forall r :: r in left <==> r in replies && !Gives(h, Some(s), p, f, r)
  {
    hide NamedAt, SameData, FieldIs, DomainEq, HostName, ServiceName, DnssdName, Gives;
    forall r ensures r in Without(h, Some(s), p, f, replies) <==> r in replies && !Gives(h, Some(s), p, f, r) {
      WithoutMeans(h, Some(s), p, f, replies, r);
    }
    left := replies;
    if f.rr.rtype == TYPE_ANY || f.rr.klass == CLASS_ANY {
      return;
    }
    var match' := left * CheckService(s, f.rr);
    if match' != {} && f.ttl > s.ttl / 2 {
      if f.rr.rtype == TYPE_PTR {
        if TypePtr in match' && NamedAt(p, f.rdOffset, ServiceName(s, false)) {
          left := left - {TypePtr};
        }
        if NamePtr in match' && NamedAt(p, f.rdOffset, ServiceName(s, true)) {
          left := left - {NamePtr};
        }
      } else if Srv in match' {
        if FieldIs(p, f.rdOffset, 0) && FieldIs(p, f.rdOffset + 2, 0) && FieldIs(p, f.rdOffset + 4, s.port) {
          if NamedAt(p, U16(f.rdOffset + 6), HostName(h)) {
            left := left - {Srv};
          }
        }
      } else if Txt in match' {
        if SameData(p, f, s.txt) {
          left := left - {Txt};
        }
      }
    }
  }

  datatype Replies = Replies(host: set<Reply>, services: seq<set<Reply>>)

  function NoReplies(h: Host): Replies { Replies({}, seq(|h.services|, _ => {})) }

  // The reply masks are those of the questions read so far.
  ghost predicate Selected(h: Host, questions: seq<Asking>, r: Replies) {
    && r.host == Wanted(h, None, questions) && |r.services| == |h.services|
    && forall i :: 0 <= i < |h.services| ==>
         r.services[i] == if h.services[i].Some? then Wanted(h, h.services[i], questions) else {}
  }

  // They are what the known answers read so far have left of them.
  ghost predicate Remaining(h: Host, p: seq<byte>, questions: seq<Asking>, answers: seq<Known>, r: Replies)
    requires |p| < 0x1_0000
  {
    && r.host == Left(h, None, p, answers, Wanted(h, None, questions)) && |r.services| == |h.services|
    && forall i :: 0 <= i < |h.services| ==>
         r.services[i] ==
         if h.services[i].Some? then Left(h, h.services[i], p, answers, Wanted(h, h.services[i], questions)) else {}
  }

  lemma {:induction false} WantedBounds(h: Host, s: Option<Service>, questions: seq<Asking>)
    ensures Wanted(h, s, questions) <= (if s.None? then HOST_REPLIES else SERVICE_REPLIES)
    ensures s.None? && h.address == [0, 0, 0, 0] ==> Wanted(h, s, questions) == {}
    decreases |questions|
  {
    hide DomainEq, HostName, ReverseName, ServiceName, DnssdName;
    if questions != [] {
      WantedBounds(h, s, questions[..|questions| - 1]);
    }
  }

  lemma {:induction false} LeftWithin(
    h: Host, s: Option<Service>, p: seq<byte>, answers: seq<Known>, replies: set<Reply>)
    requires |p| < 0x1_0000
    ensures Left(h, s, p, answers, replies) <= replies
    decreases |answers|
  {
    hide Knows;
    if answers != [] {
      LeftWithin(h, s, p, answers[..|answers| - 1], replies);
    }
  }

  // One question's turn
  method Select(h: Host, rr: Asking, was: Replies, ghost questions: seq<Asking>) returns (r: Replies)
    requires Selected(h, questions, was)
    ensures Selected(h, questions + [rr], r)
    ensures forall q :: q in r.host <==> q in was.host || AsksFor(h, None, rr, q)
    ensures forall i, q :: 0 <= i < |h.services| && h.services[i].Some? ==>
              (q in r.services[i] <==> q in was.services[i] || AsksFor(h, h.services[i], rr, q))
  {
    hide CheckHost, CheckService, AsksFor;
    forall s, q ensures q in Check(h, s, rr) <==> AsksFor(h, s, rr, q) {
      CheckMeans(h, s, rr, q);
    }
    assert (questions + [rr])[..|questions|] == questions;
    var services := was.services;
    for i := 0 to |h.services|
      invariant |services| == |h.services|
      invariant forall j :: i <= j < |services| ==> services[j] == was.services[j]
      invariant forall j :: 0 <= j < i ==>
        services[j] == if h.services[j].Some? then Wanted(h, h.services[j], questions + [rr]) else {}
    {
      if h.services[i].Some? {
        services := services[i := services[i] + CheckService(h.services[i].value, rr)];
      }
    }
    r := Replies(was.host + CheckHost(h, rr), services);
  }

  // One known answer's turn
  method Suppress(
    h: Host, p: seq<byte>, f: Known, was: Replies, ghost questions: seq<Asking>, ghost answers: seq<Known>)
    returns (r: Replies)
    requires |p| < 0x1_0000 && Remaining(h, p, questions, answers, was)
    ensures Remaining(h, p, questions, answers + [f], r)
  {
    hide Wanted, Without;
    assert (answers + [f])[..|answers|] == answers;
    WantedBounds(h, None, questions);
    LeftWithin(h, None, p, answers, Wanted(h, None, questions));
    var host := SuppressHost(h, p, f, was.host);
    var services := was.services;
    for i := 0 to |h.services|
      invariant |services| == |h.services|
      invariant forall j :: i <= j < |services| ==> services[j] == was.services[j]
      invariant forall j :: 0 <= j < i ==>
        services[j] ==
        if h.services[j].Some? then Left(h, h.services[j], p, answers + [f], Wanted(h, h.services[j], questions))
        else {}
    {
      if h.services[i].Some? {
        var s := h.services[i];
        WantedBounds(h, s, questions);
        LeftWithin(h, s, p, answers, Wanted(h, s, questions));
        var left := SuppressService(h, s.value, p, f, services[i]);
        services := services[i := left];
      }
    }
    r := Replies(host, services);
  }

  predicate Named(rrs: seq<Rr>) { forall i :: 0 <= i < |rrs| ==> WfName(rrs[i].name) }

  predicate AllKnown(fs: seq<Found>) { forall i :: 0 <= i < |fs| ==> WfName(fs[i].rr.name) }

  lemma RrNamed(p: seq<byte>, offset: u16)
    requires |p| < 0x1_0000
    ensures ReadRr(p, offset).Done? ==> WfName(ReadRr(p, offset).value.name)
  {
    hide ReadName;
    ReadNameWellFormed(p, offset);
  }

  // Records read before the rest of them
  function Prepend<T>(done: seq<T>, rest: (Option<seq<T>>, Packet)): (Option<seq<T>>, Packet) {
    if rest.0.None? then rest else (Some(done + rest.0.value), rest.1)
  }

  lemma PrependTwice<T>(done: seq<T>, x: T, rest: (Option<seq<T>>, Packet))
    ensures Prepend(done, Prepend([x], rest)) == Prepend(done + [x], rest)
  {
    if rest.0.Some? {
      assert done + ([x] + rest.0.value) == done + [x] + rest.0.value;
    }
  }

  lemma PrependNothing<T>(rest: (Option<seq<T>>, Packet))
    ensures Prepend([], rest) == rest
  {
    if rest.0.Some? {
      assert [] + rest.0.value == rest.0.value;
    }
  }

  lemma QuestionStep(k: Packet)
    requires ValidPacket(k)
    ensures k.questionsLeft == 0 ==> ReadQuestions(k) == (Some([]), k)
    ensures k.questionsLeft > 0 ==>
      var first := ReadQuestion(k);
      if first.0.None? then ReadQuestions(k).0.None?
      else WfName(first.0.value.name) && first.1.questionsLeft < k.questionsLeft && first.1.pbuf == k.pbuf &&
           ReadQuestions(k) == Prepend([first.0.value], ReadQuestions(first.1))
  {
    hide ReadRr;
    RrNamed(k.pbuf, k.offset);
  }

  lemma AnswerStep(k: Packet)
    requires ValidPacket(k)
    ensures k.answersLeft == 0 ==> ReadAnswers(k) == (Some([]), k)
    ensures k.answersLeft > 0 ==>
      var first := ReadAnswer(k);
      if first.0.None? then ReadAnswers(k).0.None?
      else WfName(first.0.value.rr.name) && first.1.answersLeft < k.answersLeft && first.1.pbuf == k.pbuf &&
           ReadAnswers(k) == Prepend([first.0.value], ReadAnswers(first.1))
  {
    hide ReadRr, ReadField16, ReadField32;
    RrNamed(k.pbuf, k.offset);
  }

  lemma NothingSelected(h: Host)
    ensures Selected(h, [], NoReplies(h))
  {}

  lemma NothingSuppressed(h: Host, p: seq<byte>, questions: seq<Asking>, r: Replies)
    requires |p| < 0x1_0000 && Selected(h, questions, r)
    ensures Remaining(h, p, questions, [], r)
  {
    hide Wanted;
  }

  // Some question asks for a unicast reply.
  ghost predicate AnyUnicast(questions: seq<Asking>) {
    exists rr :: rr in questions && rr.top
  }

  // The loop over the questions
  method Questions(pkt: InPacket, h: Host, asked: bool) returns (r: Replies, unicast: bool, ok: bool)
    requires pkt.Valid()
    modifies pkt`parseOffset, pkt`questionsLeft
    ensures pkt.Valid()
    ensures var q := ReadQuestions(old(pkt.State()));
            && ok == q.0.Some?
            && (ok ==> pkt.State() == q.1 && Named(q.0.value) && Selected(h, q.0.value, r)
                       && unicast == (asked || AnyUnicast(q.0.value)))
  {
    hide ReadQuestion, ReadQuestions, Selected;
    ghost var whole := ReadQuestions(pkt.State());
    ghost var done: seq<Asking> := [];
    r, unicast := NoReplies(h), asked;
    NothingSelected(h);
    PrependNothing(whole);
    while pkt.questionsLeft != 0
      invariant pkt.Valid() && Selected(h, done, r) && unicast == (asked || AnyUnicast(done))
      invariant whole == Prepend(done, ReadQuestions(pkt.State()))
      decreases pkt.questionsLeft
    {
      QuestionStep(pkt.State());
      var q := pkt.ReadQuestion();
      if q.None? {
        return r, unicast, false;
      }
      var rr: Asking := q.value;
      OneMore(done, rr);
      if rr.top {
        unicast := true;
      }
      r := Select(h, rr, r, done);
      PrependTwice(done, rr, ReadQuestions(pkt.State()));
      done := done + [rr];
    }
    QuestionStep(pkt.State());
    assert done + [] == done;
    ok := true;
  }

  lemma OneMore(questions: seq<Asking>, rr: Asking)
    ensures AnyUnicast(questions + [rr]) <==> AnyUnicast(questions) || rr.top
  {
    assert rr in questions + [rr];
    assert forall q :: q in questions ==> q in questions + [rr];
  }

  // The loop over the known answers
  method Answers(pkt: InPacket, h: Host, selected: Replies, ghost questions: seq<Asking>) returns (r: Replies, ok: bool)
    requires pkt.Valid() && Selected(h, questions, selected)
    modifies pkt`parseOffset, pkt`answersLeft
    ensures var a := ReadAnswers(old(pkt.State()));
            ok == a.0.Some? && (ok ==> AllKnown(a.0.value) && Remaining(h, pkt.pbuf[..], questions, a.0.value, r))
  {
    hide ReadAnswer, ReadAnswers, Selected, Remaining;
    ghost var whole := ReadAnswers(pkt.State());
    ghost var done: seq<Known> := [];
    r := selected;
    NothingSuppressed(h, pkt.pbuf[..], questions, r);
    PrependNothing(whole);
    while pkt.answersLeft != 0
      invariant pkt.Valid() && Remaining(h, pkt.pbuf[..], questions, done, r)
      invariant whole == Prepend(done, ReadAnswers(pkt.State()))
      decreases pkt.answersLeft
    {
      AnswerStep(pkt.State());
      var a := pkt.ReadAnswer();
      if a.None? {
        return r, false;
      }
      var f: Known := a.value;
      r := Suppress(h, pkt.pbuf[..], f, r, questions, done);
      PrependTwice(done, f, ReadAnswers(pkt.State()));
      done := done + [f];
    }
    AnswerStep(pkt.State());
    assert done + [] == done;
    ok := true;
  }

  // mdns_handle_question, up to the sending; a query that does not parse gets no reply.  asked
  // is the unicast_reply flag that the sender's port and the way of receipt set beforehand.
  method HandleQuestion(pkt: InPacket, h: Host, asked: bool) returns (reply: Option<Replies>, unicast: bool)
    requires pkt.Valid()
    modifies pkt`parseOffset, pkt`questionsLeft, pkt`answersLeft
    ensures var q := ReadQuestions(old(pkt.State())); var a := ReadAnswers(q.1);
            if q.0.None? || a.0.None? then reply == None
            else Named(q.0.value) && AllKnown(a.0.value) && reply.Some? &&
                 AllDue(h, pkt.pbuf[..], q.0.value, a.0.value, reply.value) &&
                 unicast == (asked || AnyUnicast(q.0.value))
  {
    hide Remaining, Selected, AnyUnicast, AllDue;
    var r, ok;
    r, unicast, ok := Questions(pkt, h, asked);
    if !ok {
      return None, unicast;
    }
    r, ok := Answers(pkt, h, r, ReadQuestions(old(pkt.State())).0.value);
    reply := if ok then Some(r) else None;
    if ok {
      ghost var q := ReadQuestions(old(pkt.State()));
      RemainingIsDue(h, pkt.pbuf[..], q.0.value, ReadAnswers(q.1).0.value, r);
    }
  }
}
