/** What an end of an IKE SA does not react to, how often it asks, and what a
    CREATE_CHILD_SA request changes (RFC 7296 sections 1.3, 2.1 to 2.3). */
module SessionRules {
  import opened Bytes
  import opened Crypto
  import opened Payloads
  import opened Messages
  import opened Reassembly
  import opened Session

  // ---- what is for this end ---------------------------------------------------------

  /** Protected just when the SA has keys, and then by the key of the other end. */
  predicate RightlyProtected(e: Endpoint, d: Datagram) {
    d.key == if e.keys.Some? then Some(e.keys.value.inbound) else None
  }

  /** The response that is waited for. */
  predicate IsAwaited(e: Endpoint, d: Datagram) {
    && d.head.isResponse && e.waiting.Some? && d.head.id == e.waiting.value.id
    && d.head.spiI == e.spiI && (e.spiR == 0 || d.head.spiR == e.spiR) && RightlyProtected(e, d)
  }

  /** The next request, or the last one once more. */
  predicate IsServed(e: Endpoint, d: Datagram) {
    && !d.head.isResponse && (d.head.spiI, d.head.spiR) == (e.spiI, e.spiR) && e.keys.Some? && RightlyProtected(e, d)
    && (d.head.id == e.peerMessageId
        || (e.lastResponse.Some? && d.head.id == e.lastResponse.value.0 == WrappingSub(e.peerMessageId)))
  }

  lemma NotForeignOpens(e: Endpoint, d: Datagram)
    requires !RightlyProtected(e, d)
    ensures OpenResponse(e, d).0 == e && OpenResponse(e, d).1.Err?
    ensures OpenRequest(e, d).0 == e && OpenRequest(e, d).1.Err?
  {
  }

  lemma NoKeysNoRequest(e: Endpoint, d: Datagram)
    requires e.keys.None?
    ensures OpenRequest(e, d) == (e, Err(Malformed))
  {
  }

  lemma HandlesNothing(e: Endpoint, d: Datagram, decision: Decision)
    requires !IsServed(e, d)
    ensures HandlePacket(e, d, decision) == Quiet(e)
  {
    if !RightlyProtected(e, d) {
      NotForeignOpens(e, d);
    } else if e.keys.None? {
      NoKeysNoRequest(e, d);
    }
  }

  /** A datagram of another SA, under another key, with another id, or a
      response nobody waits for does nothing at all. */
  lemma OthersDoNothing(e: Endpoint, d: Datagram, decision: Decision)
    requires !IsAwaited(e, d) && !IsServed(e, d)
    ensures Arrive(e, d, decision) == Quiet(Settled(e))
  {
    if e.waiting.Some? && d.head.isResponse && d.head.id == e.waiting.value.id {
      if !RightlyProtected(e, d) {
        NotForeignOpens(e, d);
      }
    } else {
      HandlesNothing(e, d, decision);
    }
  }

  // ---- what is sent and what is waited for ----------------------------------------------

  /** Under this end's SPIs, with its flag and its key. */
  predicate IsFrom(e: Endpoint, isResponse: bool, exchange: Exchange, id: u32, d: Datagram) {
    && d.head == Head(exchange, isResponse, e.initiator, id, e.spiI, e.spiR)
    && d.key == if e.keys.Some? then Some(e.keys.value.outbound) else None
  }

  lemma EncodedIsFrom(e: Endpoint, m: Message, d: Datagram)
    requires Encode(e, m).Ok? && d in Encode(e, m).value
    requires m.fromInitiator == e.initiator && m.initiatorSpi == e.spiI && m.responderSpi == e.spiR
    ensures IsFrom(e, m.isResponse, m.exchange, m.id, d)
  {
  }

  lemma EncodesSome(e: Endpoint, m: Message)
    requires Encode(e, m).Ok?
    ensures Encode(e, m).value != []
  {
  }

  /** A request goes out under the next id, which then is consumed and waited
      for; one that does not encode changes nothing. */
  lemma AskDoes(e: Endpoint, exchange: Exchange, payloads: seq<RawPayload>)
    ensures var o := Ask(e, exchange, payloads);
            if o.asked.None? then o == Quiet(e)
            else
              && o.sent != [] && (forall d :: d in o.sent ==> IsFrom(e, false, exchange, e.messageId, d))
              && o.asked.value.payloads == payloads
              && o.e == e.(messageId := (e.messageId + 1) % 0x1_0000_0000, waiting := Some(Waiting(e.messageId, o.sent, 1)))
  {
    var o := Ask(e, exchange, payloads);
    var m := NewRequest(e, exchange, payloads);
    if o.asked.Some? {
      forall d | d in o.sent ensures IsFrom(e, false, exchange, e.messageId, d) {
        EncodedIsFrom(e, m, d);
      }
      EncodesSome(e, m);
    }
  }

  /** The answer to a request goes out under the SA it came to, also when that
      SA ends with it. */
  lemma AnswersAreFrom(e: Endpoint, request: PeerRequest, decision: Decision, d: Datagram)
    requires d in Execute(e, request, decision).sent
    ensures IsFrom(e, true, request.head.exchange, request.head.id, d)
  {
    var o := Execute(e, request, decision);
    if request.head.exchange.Informational? {
      var i := Inform(e.children, e.isUp, request.payloads);
      EncodedIsFrom(e.(children := i.children), NewResponse(e, Informational, request.head.id, i.answer), d);
    } else {
      EncodedIsFrom(e, o.answered.value, d);
    }
  }

  lemma OpenKeepsRest(e: Endpoint, keys: IkeKeys, d: Datagram)
    ensures Open(e, keys, d).0 == e.(pieces := Open(e, keys, d).0.pieces)
  {
  }

  /** Nothing that is opened and nothing that is executed touches the wait. */
  lemma RequestKeepsRest(e: Endpoint, d: Datagram)
    ensures OpenRequest(e, d).0 == e.(pieces := OpenRequest(e, d).0.pieces)
  {
    if e.keys.Some? {
      OpenKeepsRest(e, e.keys.value, d);
    }
  }

  lemma ResponseKeepsRest(e: Endpoint, d: Datagram)
    ensures OpenResponse(e, d).0 == e.(pieces := OpenResponse(e, d).0.pieces)
    ensures OpenResponse(e, d).1.Ok? ==> RightlyProtected(e, d)
  {
    if e.keys.Some? {
      OpenKeepsRest(e, e.keys.value, d);
    }
  }

  lemma InformationalKeepsWaiting(e: Endpoint, request: PeerRequest)
    ensures OnInformational(e, request).e.waiting == e.waiting && OnInformational(e, request).reply.None?
  {
  }

  lemma ExecutionKeepsWaiting(e: Endpoint, request: PeerRequest, decision: Decision)
    ensures Execute(e, request, decision).e.waiting == e.waiting && Execute(e, request, decision).reply.None?
  {
    match request.head.exchange
    case Informational => InformationalKeepsWaiting(e, request);
    case CreateChildSa => CreateChildDoes(e, request, decision);
    case _ =>
  }

  lemma ServingKeepsWaiting(unsealed: (Endpoint, Result<Option<PeerRequest>>), decision: Decision)
    ensures Serve(unsealed, decision).e.waiting == unsealed.0.waiting && Serve(unsealed, decision).reply.None?
  {
    if unsealed.1.Ok? && unsealed.1.value.Some? {
      ExecutionKeepsWaiting(unsealed.0.(peerMessageId := WrappingAdd(unsealed.0.peerMessageId)), unsealed.1.value.value, decision);
    }
  }

  lemma HandlingKeepsWaiting(e: Endpoint, d: Datagram, decision: Decision)
    ensures HandlePacket(e, d, decision).e.waiting == e.waiting && HandlePacket(e, d, decision).reply.None?
  {
    RequestKeepsRest(e, d);
    ServingKeepsWaiting(OpenRequest(e, d), decision);
  }

  lemma AwaitedEndsWait(e: Endpoint, d: Datagram, decision: Decision)
    requires e.waiting.Some? && d.head.isResponse && d.head.id == e.waiting.value.id
    ensures var o := Arrive(e, d, decision);
            && o.e.waiting == (if o.reply.Some? || o.e.down then None else e.waiting)
            && (o.reply.Some? ==> IsAwaited(e, d) && o.reply.value.head == d.head)
  {
    ResponseKeepsRest(e, d);
  }

  /** A wait ends with the response it was for, or with the session. */
  lemma WaitEnds(e: Endpoint, d: Datagram, decision: Decision)
    ensures var o := Arrive(e, d, decision);
            && o.e.waiting == (if o.reply.Some? || o.e.down then None else e.waiting)
            && (o.reply.Some? ==> IsAwaited(e, d) && o.reply.value.head == d.head)
  {
    if e.waiting.Some? && d.head.isResponse && d.head.id == e.waiting.value.id {
      AwaitedEndsWait(e, d, decision);
    } else {
      HandlingKeepsWaiting(e, d, decision);
    }
  }

  // ---- asking again -----------------------------------------------------------------

  /** The end after `k` waits that ran out. */
  function AfterWaits(e: Endpoint, k: nat): Endpoint {
    if k == 0 then e else Resend(AfterWaits(e, k - 1)).e
  }

  /** A request that gets no response is sent five times in all, the same
      datagrams each time, and then given up; nothing else changes. */
  lemma {:induction false} SentFiveTimes(e: Endpoint, k: nat)
    requires e.waiting.Some? && e.waiting.value.attempt == 1 && k < 5
    ensures AfterWaits(e, k) == e.(waiting := Some(e.waiting.value.(attempt := k + 1)))
    ensures var o := Resend(AfterWaits(e, k));
            if k < 4 then o == Quiet(AfterWaits(e, k + 1)).(sent := e.waiting.value.datagrams)
            else o == Quiet(e.(waiting := None))
  {
    if k > 0 {
      SentFiveTimes(e, k - 1);
    }
  }

  // ---- CREATE_CHILD_SA --------------------------------------------------------------

  predicate IsAnswerTo(m: Message, request: PeerRequest) {
    m.isResponse && m.id == request.head.id && m.exchange.CreateChildSa?
  }

  /** The answer is a NOTIFY, and nothing else changes. */
  predicate Refuses(e: Endpoint, request: PeerRequest, notify: RawPayload, o: Outcome) {
    && o.e == e.(lastResponse := o.e.lastResponse)
    && (o.answered.Some? ==> o.answered.value.payloads == [notify] && IsAnswerTo(o.answered.value, request))
  }

  /** INVALID_SYNTAX, without protocol or SPI. */
  const InvalidSyntax := RawPayload(41, [0, 0, 0, 7])

  /** A new CHILD SA before the others, of which the one it replaces is marked. */
  predicate AddsChild(before: seq<Child>, index: nat, child: Child, after: seq<Child>) {
    && |after| == |before| + 1 && after[0] == child
    && forall i :: 0 <= i < |before| ==> after[i + 1] == if i == index then before[i].(replaced := true) else before[i]
  }

  lemma RefusalDoes(e: Endpoint, request: PeerRequest, notify: RawPayload)
    ensures Refuses(e, request, notify, RefuseWith(e, request, notify)) && NotifyOf(INVALID_SYNTAX) == InvalidSyntax
  {
    assert [0, 0] + Be16(7) == [0, 0, 0, 7];
  }

  lemma SentIsAnswer(e: Endpoint, request: PeerRequest, answer: seq<RawPayload>)
    ensures var m := NewResponse(e, CreateChildSa, request.head.id, answer);
            var o := Answer(e, request, m);
            && o.e == e.(lastResponse := o.e.lastResponse) && (o.answered.Some? <==> Encode(e, m).Ok?)
            && (o.answered.Some? ==> o.answered == Some(m) && IsAnswerTo(m, request))
  {
  }

  lemma ReplaceMarks(children: seq<Child>, index: nat, child: Child)
    ensures AddsChild(children, index, child, [child] + Replace(children, index))
  {
  }

  /** A request of another exchange is refused. */
  lemma OtherExchangeDoes(e: Endpoint, request: PeerRequest, decision: Decision)
    requires !request.head.exchange.CreateChildSa? && !request.head.exchange.Informational?
    ensures var o := Execute(e, request, decision);
            && o.executed == Some(request) && o.e == e.(lastResponse := o.e.lastResponse)
            && (o.answered.Some? ==>
                  && o.answered.value.payloads == [InvalidSyntax] && o.answered.value.isResponse
                  && o.answered.value.id == request.head.id && o.answered.value.exchange == request.head.exchange)
  {
    assert [0, 0] + Be16(7) == [0, 0, 0, 7];
  }

  /** A rekey takes effect just when its answer encodes and so is sent;
      otherwise the request is refused. */
  lemma CreateChildDoes(e: Endpoint, request: PeerRequest, decision: Decision)
    requires request.head.exchange.CreateChildSa?
    ensures var o := Execute(e, request, decision);
            match decision
            case Refuse(notify) => Refuses(e, request, notify, o)
            case Unintelligible => Refuses(e, request, InvalidSyntax, o)
            case RekeyIke(answer, next) =>
              if Encode(e, NewResponse(e, CreateChildSa, request.head.id, answer)).Err? then Refuses(e, request, InvalidSyntax, o)
              else
                && o.answered.Some? && IsAnswerTo(o.answered.value, request) && o.answered.value.payloads == answer
                && o.e == e.(lastResponse := o.e.lastResponse, nextIke := Some(next))
            case RekeyChild(answer, index, child) =>
              if Encode(e, NewResponse(e, CreateChildSa, request.head.id, answer)).Err? then Refuses(e, request, InvalidSyntax, o)
              else
                && o.answered.Some? && IsAnswerTo(o.answered.value, request) && o.answered.value.payloads == answer
                && o.e == e.(lastResponse := o.e.lastResponse, children := o.e.children)
                && AddsChild(e.children, index, child, o.e.children)
  {
    RefusalDoes(e, request, InvalidSyntax);
    match decision
    case Refuse(notify) => RefusalDoes(e, request, notify);
    case Unintelligible =>
    case RekeyIke(answer, next) => SentIsAnswer(e, request, answer);
    case RekeyChild(answer, index, child) =>
      SentIsAnswer(e, request, answer);
      ReplaceMarks(e.children, index, child);
  }
}
