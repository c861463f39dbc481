/** One exchange from end to end, when nothing is lost: the runs of
    `SessionSafety` do get somewhere. */
module SessionExchange {
  import opened Bytes
  import opened Payloads
  import opened Messages
  import opened Reassembly
  import opened Session
  import opened SessionSafety
  import opened SessionDelivery

  /** Two ends of one SA, at rest, with their ids in step. */
  ghost predicate AtRest(n: Node, peer: Node) {
    && Ready(n.e) && Ready(peer.e) && n.e.nextIke.None? && peer.e.nextIke.None?
    && (n.e.spiI, n.e.spiR) == (peer.e.spiI, peer.e.spiR)
    && n.e.messageId == peer.e.peerMessageId < LAST_ID && n.e.peerMessageId < LAST_ID
  }

  lemma ExecuteAnswersHere(e: Endpoint, request: PeerRequest, decision: Decision)
    ensures var o := Execute(e, request, decision);
            o.answered.Some? ==> (o.answered.value.initiatorSpi, o.answered.value.responderSpi) == (e.spiI, e.spiR)
  {
  }

  lemma ServeAnswersHere(unsealed: (Endpoint, Result<Option<PeerRequest>>), decision: Decision)
    ensures var o, e := Serve(unsealed, decision), unsealed.0;
            o.answered.Some? ==> (o.answered.value.initiatorSpi, o.answered.value.responderSpi) == (e.spiI, e.spiR)
  {
    if unsealed.1.Ok? && unsealed.1.value.Some? {
      ExecuteAnswersHere(unsealed.0.(peerMessageId := WrappingAdd(unsealed.0.peerMessageId)), unsealed.1.value.value, decision);
    }
  }

  lemma HandleAnswersHere(e: Endpoint, d: Datagram, decision: Decision)
    ensures var o := HandlePacket(e, d, decision);
            o.answered.Some? ==> (o.answered.value.initiatorSpi, o.answered.value.responderSpi) == (e.spiI, e.spiR)
  {
    if !d.head.isResponse && (d.head.spiI, d.head.spiR) == (e.spiI, e.spiR)
       && d.head.id != WrappingSub(e.peerMessageId) && d.head.id == e.peerMessageId
    {
      ServeAnswersHere(OpenRequest(e, d), decision);
    }
  }

  /** What a datagram gets executed is answered in its SA. */
  lemma ArriveAnswersHere(e: Endpoint, d: Datagram, decision: Decision)
    ensures var o := Arrive(e, d, decision);
            o.answered.Some? ==> (o.answered.value.initiatorSpi, o.answered.value.responderSpi) == (e.spiI, e.spiR)
  {
    if !(e.waiting.Some? && d.head.isResponse && d.head.id == e.waiting.value.id) {
      HandleAnswersHere(e, d, decision);
    }
  }

  /** The answer to the request just executed. */
  ghost predicate IsAnswerTo(n: Node, m: Message, sent: seq<Datagram>)
    requires n.e.keys.Some?
  {
    && LastAnswer(n) == Some(m) && Sealed(m, OutKey(n), MaxLen(n)) == Ok(sent)
    && m.isResponse && Proper(m.payloads)
  }

  lemma ExecutedIsAnswered(n: Node, d: Datagram, decision: Decision, request: PeerRequest)
    requires n.e.keys.Some? && n.e.peerMessageId < LAST_ID && n.e.nextIke.None? && ProperAnswer(decision)
    requires var n' := Received(n, d, decision); n'.executed == n.executed + [request] && LastAnswer(n').Some?
    ensures var n' := Received(n, d, decision);
            && n'.e.keys == n.e.keys && n'.e.peerFragments == n.e.peerFragments
            && IsAnswerTo(n', LastAnswer(n').value, Arrive(n.e, d, decision).sent)
            && LastAnswer(n').value.id == n.e.peerMessageId
            && (LastAnswer(n').value.initiatorSpi, LastAnswer(n').value.responderSpi) == (n.e.spiI, n.e.spiR)
  {
    ArriveShape(n.e, d, decision);
    ArriveAnswersHere(n.e, d, decision);
    assert |n.executed + [request]| == |n.executed| + 1;
  }

  /** A message whose datagrams were sent, and that may come next, is taken. */
  lemma MessageArrives(start: System, events: seq<(bool, Event)>, s: System, left: bool, m: Message, ds: seq<Datagram>,
                       decision: Decision, clash: bool)
    returns (more: seq<(bool, Event)>, s': System, before: Node)
    requires Runs(start, events, s, clash) && KeysMatch(s.At(left), s.At(!left)) && (clash || NoClash(s.At(!left)))
    requires Ready(s.At(left).e) && s.At(left).e.nextIke.None? && s.At(left).e.peerMessageId < LAST_ID
    requires Heads(s.At(left).e, HeadOf(m)) && Proper(m.payloads) && ProperAnswer(decision) && Receivable(s.At(!left), m)
    requires Sealed(m, OutKey(s.At(!left)), MaxLen(s.At(!left))) == Ok(ds) && forall d :: d in ds ==> d in s.net
    ensures Runs(start, more, s', clash) && events <= more && ds != [] && s'.At(!left) == s.At(!left) && s.net <= s'.net
    ensures Took(s.At(left), m, m.payloads, s'.At(left))
    ensures Gathering(before, s.At(left)) && s'.At(left) == Received(before, ds[|ds| - 1], decision)
    ensures forall d :: d in Arrive(before.e, ds[|ds| - 1], decision).sent ==> d in s'.net
  {
    var n := s.At(left);
    var trace := MessageIsTaken(n, m, MaxLen(s.At(!left)), ds, decision);
    assert ds != [];
    more, s', before := RunDeliversAll(start, events, s, left, trace, ds, decision, clash);
  }

  /** A message without payloads is not split, and fits. */
  lemma BareIsSealed(m: Message, key: Keys, maxLen: Option<nat>)
    requires m.payloads == [] && maxLen in {None, Some(FRAGMENT_LEN)}
    ensures Sealed(m, key, maxLen).Ok? && EncodeChain(m.payloads) == Ok([]) && !Splits(key, 0, maxLen)
  {
  }

  lemma OneListed(before: seq<PeerRequest>, o: Option<PeerRequest>, request: PeerRequest)
    requires before + Listed(o) == before + [request]
    ensures o == Some(request)
  {
    assert |before + Listed(o)| == |before| + 1;
    assert (before + [request])[|before|] == request;
  }

  lemma ProbeExecutes(e: Endpoint, request: PeerRequest, decision: Decision)
    requires e.keys.Some? && request.head.exchange.Informational? && request.payloads == []
    ensures var o := Execute(e, request, decision); o.answered.Some? && o.answered.value.payloads == []
  {
    assert Inform(e.children, e.isUp, []) == Informed(e.children, [], false);
    BareIsSealed(NewResponse(e, Informational, request.head.id, []), e.keys.value.outbound, if e.peerFragments then Some(FRAGMENT_LEN) else None);
  }

  /** A dead peer detection request is answered, without payloads. */
  lemma ProbeIsAnswered(n: Node, d: Datagram, decision: Decision, request: PeerRequest)
    requires n.e.keys.Some? && n.e.peerMessageId < LAST_ID && n.e.nextIke.None? && ProperAnswer(decision)
    requires Received(n, d, decision).executed == n.executed + [request]
    requires request.head.exchange.Informational? && request.payloads == []
    ensures var n' := Received(n, d, decision);
            && n'.e.keys == n.e.keys && LastAnswer(n').Some? && LastAnswer(n').value.payloads == []
            && Receivable(n', LastAnswer(n').value)
  {
    var o := Arrive(n.e, d, decision);
    ArriveShape(n.e, d, decision);
    OneListed(n.executed, o.executed, request);
    var e' := OpenRequest(n.e, d).0;
    ProbeExecutes(e'.(peerMessageId := WrappingAdd(e'.peerMessageId)), request, decision);
    BareIsSealed(o.answered.value, OutKey(n), MaxLen(n));
  }

  /** Its answer was sent, and is of this SA and this id. */
  ghost predicate AnswerSent(s: System, left: bool, m: Message, id: u32)
    requires s.At(left).e.keys.Some?
  {
    && LastAnswer(s.At(left)) == Some(m) && Sealed(m, OutKey(s.At(left)), MaxLen(s.At(left))).Ok?
    && (forall d :: d in Sealed(m, OutKey(s.At(left)), MaxLen(s.At(left))).value ==> d in s.net)
    && m.isResponse && Proper(m.payloads) && m.id == id
    && (m.initiatorSpi, m.responderSpi) == (s.At(!left).e.spiI, s.At(!left).e.spiR)
  }

  /** `n` has asked `r` and waits, and is as it was otherwise. */
  ghost predicate Asked(n: Node, n': Node, r: Message) {
    && n' == n.(e := n.e.(messageId := n'.e.messageId, waiting := n'.e.waiting), asked := n.asked + [r])
    && n'.e.waiting.Some? && n'.e.waiting.value.id == r.id
  }

  lemma AskedWaits(n: Node, exchange: Exchange, payloads: seq<RawPayload>)
    requires Ask(n.e, exchange, payloads).asked.Some?
    ensures Asked(n, After(n, Ask(n.e, exchange, payloads)), NewRequest(n.e, exchange, payloads))
  {
    var n' := After(n, Ask(n.e, exchange, payloads));
    assert n.executed + [] == n.executed && n.answered + [] == n.answered && n.replies + [] == n.replies;
  }

  lemma AskedIsSent(start: System, events: seq<(bool, Event)>, s: System, left: bool, exchange: Exchange, payloads: seq<RawPayload>,
                    clash: bool)
    returns (more: seq<(bool, Event)>, s': System, ds: seq<Datagram>)
    requires Runs(start, events, s, clash) && s.At(left).e.keys.Some? && s.At(!left).e.keys.Some?
    requires Proper(payloads) && s.At(left).e.messageId < LAST_ID && Ask(s.At(left).e, exchange, payloads).asked.Some?
    ensures Runs(start, more, s', clash) && events <= more && s'.At(!left) == s.At(!left) && s.net <= s'.net
    ensures s'.At(left) == After(s.At(left), Ask(s.At(left).e, exchange, payloads))
    ensures Asked(s.At(left), s'.At(left), NewRequest(s.At(left).e, exchange, payloads))
    ensures Sealed(NewRequest(s.At(left).e, exchange, payloads), OutKey(s.At(left)), MaxLen(s.At(left))) == Ok(ds)
    ensures forall d :: d in ds ==> d in s'.net
  {
    RunsOn(start, events, s, left, AskFor(exchange, payloads), clash);
    AskedWaits(s.At(left), exchange, payloads);
    ds := Ask(s.At(left).e, exchange, payloads).sent;
    more, s' := events + [(left, AskFor(exchange, payloads))], Step(s, left, AskFor(exchange, payloads));
  }

  ghost predicate BareAnswer(n: Node) {
    n.e.keys.Some? && LastAnswer(n).Some? && LastAnswer(n).value.payloads == [] && Receivable(n, LastAnswer(n).value)
  }

  /** The request this end would send next. */
  function NextRequest(n: Node, exchange: Exchange, payloads: seq<RawPayload>): Message {
    NewRequest(n.e, exchange, payloads)
  }

  lemma KeysStay(n: Node, d: Datagram, decision: Decision, request: PeerRequest)
    requires n.e.keys.Some? && n.e.peerMessageId < LAST_ID && n.e.nextIke.None? && ProperAnswer(decision)
    requires Received(n, d, decision).executed == n.executed + [request]
    ensures Received(n, d, decision).e.keys == n.e.keys
  {
    ArriveShape(n.e, d, decision);
  }

  /** The datagrams of a request that is asked: it is executed. */
  lemma RequestIsTaken(start: System, events: seq<(bool, Event)>, s: System, left: bool, m: Message, ds: seq<Datagram>, decision: Decision)
    returns (more: seq<(bool, Event)>, s': System)
    requires Reaches(start, events, s) && KeysMatch(s.At(left), s.At(!left)) && NoClash(s.At(!left))
    requires Ready(s.At(left).e) && s.At(left).e.nextIke.None? && s.At(left).e.peerMessageId < LAST_ID
    requires Heads(s.At(left).e, HeadOf(m)) && !m.isResponse && Proper(m.payloads) && ProperAnswer(decision) && Receivable(s.At(!left), m)
    requires Sealed(m, OutKey(s.At(!left)), MaxLen(s.At(!left))) == Ok(ds) && forall d :: d in ds ==> d in s.net
    requires (s.At(left).e.spiI, s.At(left).e.spiR) == (s.At(!left).e.spiI, s.At(!left).e.spiR)
    ensures Reaches(start, more, s') && events <= more && s'.At(!left) == s.At(!left)
    ensures s'.At(left).executed == s.At(left).executed + [PeerRequest(HeadOf(m), m.payloads)] && s'.At(left).e.keys == s.At(left).e.keys
    ensures LastAnswer(s'.At(left)).Some? ==> AnswerSent(s', left, LastAnswer(s'.At(left)).value, m.id)
    ensures m.exchange.Informational? && m.payloads == [] ==> BareAnswer(s'.At(left))
  {
    var before: Node;
    more, s', before := MessageArrives(start, events, s, left, m, ds, decision, false);
    if LastAnswer(s'.At(left)).Some? {
      ExecutedIsAnswered(before, ds[|ds| - 1], decision, PeerRequest(HeadOf(m), m.payloads));
    } else {
      KeysStay(before, ds[|ds| - 1], decision, PeerRequest(HeadOf(m), m.payloads));
    }
    if m.exchange.Informational? && m.payloads == [] {
      ProbeIsAnswered(before, ds[|ds| - 1], decision, PeerRequest(HeadOf(m), m.payloads));
    }
  }

  /** One request is executed by the other end, and answered or not. */
  ghost predicate Executed(s: System, left: bool, s': System, m: Message) {
    && Asked(s.At(left), s'.At(left), m)
    && s'.At(!left).executed == s.At(!left).executed + [PeerRequest(HeadOf(m), m.payloads)]
    && KeysMatch(s'.At(left), s'.At(!left))
  }

  lemma RequestIsExecuted(start: System, events: seq<(bool, Event)>, s: System, left: bool,
                          exchange: Exchange, payloads: seq<RawPayload>, decision: Decision)
    returns (more: seq<(bool, Event)>, s': System)
    requires Reaches(start, events, s) && KeysMatch(s.At(left), s.At(!left)) && AtRest(s.At(left), s.At(!left))
    requires Proper(payloads) && ProperAnswer(decision) && Ask(s.At(left).e, exchange, payloads).asked.Some?
    requires Receivable(s.At(left), NextRequest(s.At(left), exchange, payloads))
    requires NoClash(After(s.At(left), Ask(s.At(left).e, exchange, payloads)))
    ensures Reaches(start, more, s') && events <= more
    ensures Executed(s, left, s', NextRequest(s.At(left), exchange, payloads))
    ensures LastAnswer(s'.At(!left)).Some? ==> AnswerSent(s', !left, LastAnswer(s'.At(!left)).value, s.At(left).e.messageId)
    ensures exchange.Informational? && payloads == [] ==> BareAnswer(s'.At(!left))
  {
    var n, m := s.At(left), NextRequest(s.At(left), exchange, payloads);
    var first, s1, ds := AskedIsSent(start, events, s, left, exchange, payloads, false);
    more, s' := RequestIsTaken(start, first, s1, !left, m, ds, decision);
  }

  lemma AnswerIsTaken(start: System, events: seq<(bool, Event)>, s: System, left: bool, m: Message, decision: Decision)
    returns (more: seq<(bool, Event)>, s': System)
    requires Reaches(start, events, s) && KeysMatch(s.At(left), s.At(!left)) && ProperAnswer(decision) && NoClash(s.At(!left))
    requires Ready(s.At(left).e) && s.At(left).e.nextIke.None? && s.At(left).e.peerMessageId < LAST_ID
    requires s.At(left).e.waiting.Some? && AnswerSent(s, !left, m, s.At(left).e.waiting.value.id) && Receivable(s.At(!left), m)
    ensures Reaches(start, more, s') && events <= more && s'.At(!left) == s.At(!left)
    ensures s'.At(left).replies == s.At(left).replies + [Reply(HeadOf(m), m.payloads)] && s'.At(left).e.waiting.None?
  {
    var ds := Sealed(m, OutKey(s.At(!left)), MaxLen(s.At(!left))).value;
    var before: Node;
    more, s', before := MessageArrives(start, events, s, left, m, ds, decision, false);
  }

  /** A request asked, all its datagrams delivered, and those of the answer:
      the other end has executed it, and unless no answer can be made or received
      this end has it for reply and waits no more. To a probe there is always
      an answer, and it can be received. */
  lemma ExchangeCompletes(start: System, events: seq<(bool, Event)>, s: System, left: bool,
                          exchange: Exchange, payloads: seq<RawPayload>, decision: Decision)
    returns (more: seq<(bool, Event)>, s': System)
    requires Start(start) && Reaches(start, events, s) && AtRest(s.At(left), s.At(!left))
    requires Proper(payloads) && ProperAnswer(decision) && Ask(s.At(left).e, exchange, payloads).asked.Some?
    requires s.At(left).e.keys.Some? && Receivable(s.At(left), NextRequest(s.At(left), exchange, payloads))
    requires NoClash(After(s.At(left), Ask(s.At(left).e, exchange, payloads)))
    ensures Reaches(start, more, s') && events <= more && s'.At(!left).e.keys.Some?
    ensures s'.At(!left).executed
            == s.At(!left).executed + [PeerRequest(HeadOf(NextRequest(s.At(left), exchange, payloads)), payloads)]
    ensures var answer := LastAnswer(s'.At(!left));
            answer.Some? && Receivable(s'.At(!left), answer.value) && NoClash(s'.At(!left)) ==>
              && s'.At(left).replies == s.At(left).replies + [Reply(HeadOf(answer.value), answer.value.payloads)]
              && s'.At(left).e.waiting.None?
    ensures exchange.Informational? && payloads == [] ==> BareAnswer(s'.At(!left))
  {
    RunKeepsInv(start, events, s);
    var first, s2 := RequestIsExecuted(start, events, s, left, exchange, payloads, decision);
    more, s' := first, s2;
    var answer := LastAnswer(s2.At(!left));
    if answer.Some? && Receivable(s2.At(!left), answer.value) && NoClash(s2.At(!left)) {
      AskedWaits(s.At(left), exchange, payloads);
      more, s' := AnswerIsTaken(start, first, s2, left, answer.value, decision);
    }
  }
}
