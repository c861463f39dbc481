/** No AEAD IV is used twice under one key, over the whole life of a session:
    its retransmissions, its cached responses and its rekeyed IKE SAs (section
    3 of RFC 5282). */
module SessionIvs {
  import opened Bytes
  import opened Payloads
  import opened Messages
  import opened Reassembly
  import opened Session
  import opened SessionSafety

  /** One end: all it ever sent, and the keys it may seal with. */
  datatype Sender = Sender(e: Endpoint, sent: set<Session.Datagram>, used: set<Keys>)

  function Number(d: Session.Datagram): u16 {
    if d.content.fragment.Some? then d.content.fragment.value.0 else 0
  }

  function IvOf(d: Session.Datagram): bytes {
    AeadIv(d.head.id, Number(d), d.head.isResponse)
  }

  function KeysOf(e: Endpoint): set<Keys> {
    (if e.keys.Some? then {e.keys.value.outbound} else {})
    + (if e.nextIke.Some? then {e.nextIke.value.keys.outbound} else {})
  }

  function Sends(x: Sender, ev: Event): Sender {
    var o := Does(x.e, ev);
    Sender(o.e, x.sent + (set d | d in o.sent), x.used + KeysOf(o.e))
  }

  /** Any datagram may come in. Ids do not wrap, and the keys of a rekeyed SA
      are new. */
  predicate Feasible(x: Sender, ev: Event) {
    match ev
    case AskFor(_, _) => x.e.messageId < LAST_ID
    case Datagram(_, decision) =>
      x.e.peerMessageId < LAST_ID && (decision.RekeyIke? ==> decision.next.keys.outbound !in x.used)
    case _ => true
  }

  ghost predicate Leads(from: Sender, events: seq<Event>, to: Sender)
    decreases |events|
  {
    if events == [] then from == to
    else
      var k := |events| - 1;
      exists mid: Sender :: Leads(from, events[..k], mid) && Feasible(mid, events[k]) && to == Sends(mid, events[k])
  }

  /** The keys just set. */
  ghost predicate Begins(x: Sender) {
    && x.e.keys.Some? && x.e.nextIke.None? && x.e.lastResponse.None? && x.e.waiting.None?
    && x.sent == {} && x.used == KeysOf(x.e)
  }

  // ---- what every step keeps ------------------------------------------------

  ghost predicate Counted(e: Endpoint, d: Session.Datagram) {
    d.head.id < if d.head.isResponse then e.peerMessageId else e.messageId
  }

  ghost predicate UnderOwnKeys(x: Sender)
    requires x.e.keys.Some?
  {
    && KeysOf(x.e) <= x.used
    && (forall d :: d in x.sent ==> d.key.Some? && d.key.value in x.used)
    && (forall d :: d in x.sent && d.key == Some(x.e.keys.value.outbound) ==> Counted(x.e, d))
  }

  ghost predicate NextUnused(x: Sender)
    requires x.e.keys.Some?
  {
    x.e.nextIke.Some? ==>
      && x.e.nextIke.value.keys.outbound != x.e.keys.value.outbound
      && forall d :: d in x.sent ==> d.key != Some(x.e.nextIke.value.keys.outbound)
  }

  ghost predicate KeptWereSent(x: Sender) {
    && (x.e.lastResponse.Some? ==> forall d :: d in x.e.lastResponse.value.1 ==> d in x.sent)
    && (x.e.waiting.Some? ==> forall d :: d in x.e.waiting.value.datagrams ==> d in x.sent)
  }

  ghost predicate NoReuse(sent: set<Session.Datagram>) {
    forall d, d' :: d in sent && d' in sent && d.key == d'.key && IvOf(d) == IvOf(d') ==> d == d'
  }

  ghost predicate Inv(x: Sender) {
    && x.e.keys.Some? && UnderOwnKeys(x) && NextUnused(x) && KeptWereSent(x) && NoReuse(x.sent)
  }

  // ---- one step --------------------------------------------------------------

  /** Sends again what it keeps, or nothing. */
  ghost predicate Resends(e: Endpoint, o: Outcome) {
    && o.e.keys == e.keys && o.e.messageId == e.messageId && o.e.peerMessageId == e.peerMessageId
    && o.e.nextIke == e.nextIke && o.e.lastResponse == e.lastResponse && Waits(e, o.e)
    && (o.sent == [] || (e.waiting.Some? && o.sent == e.waiting.value.datagrams)
        || (e.lastResponse.Some? && o.sent == e.lastResponse.value.1))
  }

  /** The datagrams of one message with this id and direction, or none. */
  ghost predicate SendsOne(e: Endpoint, sent: seq<Session.Datagram>, isResponse: bool, id: u32)
    requires e.keys.Some?
  {
    sent == [] || exists m: Message :: m.id == id && m.isResponse == isResponse && Encode(e, m) == Ok(sent)
  }

  /** The state after a response with the current peer id: the id is counted,
      and a rekeyed SA may be next, or may have taken over. */
  ghost predicate Responds(e: Endpoint, o: Outcome, decision: Decision)
    requires e.keys.Some?
  {
    && SendsOne(e, o.sent, true, e.peerMessageId)
    && Waits(e, o.e)
    && if o.e.nextIke.None? && e.nextIke.Some?
       then o.e.keys == Some(e.nextIke.value.keys) && o.e.messageId == 0 && o.e.peerMessageId == 0 && o.e.lastResponse.None?
       else
         && o.e.keys == e.keys && o.e.messageId == e.messageId && o.e.peerMessageId == e.peerMessageId + 1
         && (o.e.nextIke == e.nextIke || (decision.RekeyIke? && o.e.nextIke == Some(decision.next)))
         && (o.e.lastResponse == e.lastResponse || (o.e.lastResponse.Some? && o.e.lastResponse.value.1 == o.sent))
  }

  /** An answer to `request`, before anything is made of it. */
  ghost predicate Answered(e: Endpoint, request: PeerRequest, o: Outcome)
    requires e.keys.Some?
  {
    && SendsOne(e, o.sent, true, request.head.id)
    && o.e == e.(lastResponse := o.e.lastResponse)
    && (o.e.lastResponse == e.lastResponse || (o.e.lastResponse.Some? && o.e.lastResponse.value.1 == o.sent))
  }

  lemma AnswerIsAnswered(e: Endpoint, request: PeerRequest, m: Message)
    requires e.keys.Some? && m.id == request.head.id && m.isResponse
    ensures Answered(e, request, Answer(e, request, m))
  {
    if Encode(e, m).Ok? {
      assert SendsOne(e, Encode(e, m).value, true, request.head.id);
    }
  }

  /** `e` has counted the id of the request, `e0` has not. */
  ghost predicate CountedFrom(e0: Endpoint, e: Endpoint, request: PeerRequest) {
    && e0.peerMessageId < LAST_ID && request.head.id == e0.peerMessageId
    && e == e0.(pieces := e.pieces, peerMessageId := e0.peerMessageId + 1)
  }

  lemma SameEncoding(e0: Endpoint, e: Endpoint, sent: seq<Session.Datagram>, id: u32)
    requires e0.keys.Some? && e.keys == e0.keys && e.peerFragments == e0.peerFragments && SendsOne(e, sent, true, id)
    ensures SendsOne(e0, sent, true, id)
  {
    if sent != [] {
      var m: Message :| m.id == id && m.isResponse && Encode(e, m) == Ok(sent);
      assert Encode(e0, m) == Ok(sent);
    }
  }

  lemma ConcludeResponds(e0: Endpoint, e: Endpoint, request: PeerRequest, o: Outcome, ended: bool, decision: Decision)
    requires e0.keys.Some? && CountedFrom(e0, e.(children := e0.children), request) && Answered(e, request, o)
    ensures Responds(e0, o, decision) && Responds(e0, o.(e := Conclude(o.e, ended)), decision)
  {
    SameEncoding(e0, e, o.sent, request.head.id);
  }

  lemma InformationalResponds(e0: Endpoint, e: Endpoint, request: PeerRequest, decision: Decision)
    requires e0.keys.Some? && CountedFrom(e0, e, request)
    ensures Responds(e0, OnInformational(e, request), decision)
  {
    var i := Inform(e.children, e.isUp, request.payloads);
    var e1 := e.(children := i.children);
    var m := NewResponse(e, Informational, request.head.id, i.answer);
    AnswerIsAnswered(e1, request, m);
    ConcludeResponds(e0, e1, request, Answer(e1, request, m), i.ended, decision);
  }

  /** An answer, and perhaps a rekeyed SA or CHILD SA made of it. */
  lemma AnswerResponds(e0: Endpoint, e: Endpoint, request: PeerRequest, o: Outcome, decision: Decision)
    requires e0.keys.Some? && CountedFrom(e0, e, request) && Answered(e, request, o)
    ensures Responds(e0, o, decision)
    ensures decision.RekeyIke? ==> Responds(e0, o.(e := o.e.(nextIke := Some(decision.next))), decision)
    ensures forall children :: Responds(e0, o.(e := o.e.(children := children)), decision)
  {
    SameEncoding(e0, e, o.sent, request.head.id);
  }

  lemma RefusalResponds(e0: Endpoint, e: Endpoint, request: PeerRequest, notify: RawPayload, decision: Decision)
    requires e0.keys.Some? && CountedFrom(e0, e, request)
    ensures Responds(e0, RefuseWith(e, request, notify), decision)
  {
    var m := NewResponse(e, CreateChildSa, request.head.id, [notify]);
    AnswerIsAnswered(e, request, m);
    AnswerResponds(e0, e, request, Answer(e, request, m), decision);
  }

  lemma CreateChildResponds(e0: Endpoint, e: Endpoint, request: PeerRequest, decision: Decision)
    requires e0.keys.Some? && CountedFrom(e0, e, request)
    ensures Responds(e0, OnCreateChildSa(e, request, decision), decision)
  {
    var notify := if decision.Refuse? then decision.notify else NotifyOf(INVALID_SYNTAX);
    RefusalResponds(e0, e, request, notify, decision);
    if decision.RekeyIke? || decision.RekeyChild? {
      var m := NewResponse(e, CreateChildSa, request.head.id, decision.answer);
      AnswerIsAnswered(e, request, m);
      AnswerResponds(e0, e, request, Answer(e, request, m), decision);
    }
  }

  lemma ExecuteResponds(e0: Endpoint, e: Endpoint, request: PeerRequest, decision: Decision)
    requires e0.keys.Some? && CountedFrom(e0, e, request)
    ensures Responds(e0, Execute(e, request, decision), decision)
  {
    match request.head.exchange
    case Informational => InformationalResponds(e0, e, request, decision);
    case CreateChildSa => CreateChildResponds(e0, e, request, decision);
    case _ =>
      var m := NewResponse(e, request.head.exchange, request.head.id, [NotifyOf(INVALID_SYNTAX)]);
      AnswerIsAnswered(e, request, m);
      AnswerResponds(e0, e, request, Answer(e, request, m), decision);
  }

  ghost predicate Sound(e: Endpoint, o: Outcome, decision: Decision)
    requires e.keys.Some?
  {
    Resends(e, o) || Responds(e, o, decision)
  }

  lemma ServeOpenedSound(e: Endpoint, e': Endpoint, r: Result<Option<PeerRequest>>, decision: Decision)
    requires e.keys.Some? && e.peerMessageId < LAST_ID && e' == e.(pieces := e'.pieces)
    requires r.Ok? && r.value.Some? ==> r.value.value.head.id == e.peerMessageId
    ensures Sound(e, Serve((e', r), decision), decision)
  {
    if r.Ok? && r.value.Some? {
      ExecuteResponds(e, e'.(peerMessageId := e.peerMessageId + 1), r.value.value, decision);
    }
  }

  lemma ServeSound(e: Endpoint, d: Session.Datagram, decision: Decision)
    requires e.keys.Some? && e.peerMessageId < LAST_ID && d.head.id == e.peerMessageId
    ensures Sound(e, Serve(OpenRequest(e, d), decision), decision)
  {
    OpenKeeps(e, d);
    ServeOpenedSound(e, OpenRequest(e, d).0, OpenRequest(e, d).1, decision);
  }

  lemma QuietSound(e: Endpoint, e': Endpoint, decision: Decision)
    requires e.keys.Some? && e' == e.(pieces := e'.pieces)
    ensures Sound(e, Quiet(e'), decision)
    ensures e.lastResponse.Some? ==> Sound(e, Quiet(e').(sent := e.lastResponse.value.1), decision)
  {
  }

  lemma HandleSound(e: Endpoint, d: Session.Datagram, decision: Decision)
    requires e.keys.Some? && e.peerMessageId < LAST_ID
    ensures Sound(e, HandlePacket(e, d, decision), decision)
  {
    if !d.head.isResponse && (d.head.spiI, d.head.spiR) == (e.spiI, e.spiR) && d.head.id == e.peerMessageId {
      ServeSound(e, d, decision);
    } else {
      OpenKeeps(e, d);
      QuietSound(e, e, decision);
      QuietSound(e, OpenRequest(e, d).0, decision);
    }
  }

  lemma SettledSound(e: Endpoint, o: Outcome, decision: Decision)
    requires e.keys.Some? && Sound(e, o, decision)
    ensures Sound(e, o.(e := Settled(o.e)), decision)
  {
  }

  lemma ReplySound(e: Endpoint, d: Session.Datagram, decision: Decision)
    requires e.keys.Some? && e.waiting.Some? && d.head.isResponse && d.head.id == e.waiting.value.id
    ensures Sound(e, Arrive(e, d, decision), decision)
  {
    OpenKeeps(e, d);
  }

  lemma ArriveSound(e: Endpoint, d: Session.Datagram, decision: Decision)
    requires e.keys.Some? && e.peerMessageId < LAST_ID
    ensures Sound(e, Arrive(e, d, decision), decision)
  {
    if e.waiting.Some? && d.head.isResponse && d.head.id == e.waiting.value.id {
      ReplySound(e, d, decision);
    } else {
      HandleSound(e, d, decision);
      SettledSound(e, HandlePacket(e, d, decision), decision);
    }
  }

  // ---- every step keeps it ----------------------------------------------------

  lemma PieceNumber(m: Message, key: Keys, maxLen: nat, d: Session.Datagram) returns (i: nat)
    requires Sealed(m, key, Some(maxLen)).Ok? && Splits(key, |EncodeChain(m.payloads).value|, Some(maxLen))
    requires d in Sealed(m, key, Some(maxLen)).value
    ensures i < |Sealed(m, key, Some(maxLen)).value| && d == Sealed(m, key, Some(maxLen)).value[i] && Number(d) == i + 1
  {
    i :| 0 <= i < |Sealed(m, key, Some(maxLen)).value| && d == Sealed(m, key, Some(maxLen)).value[i];
    SealedPiece(m, key, maxLen, i);
  }

  /** The pieces of one message have different numbers. */
  lemma OneMessageOneIvEach(m: Message, key: Keys, maxLen: Option<nat>, d: Session.Datagram, d': Session.Datagram)
    requires Sealed(m, key, maxLen).Ok? && d in Sealed(m, key, maxLen).value && d' in Sealed(m, key, maxLen).value
    requires IvOf(d) == IvOf(d')
    ensures d == d'
  {
    AeadIvIsInjective(d.head.id, Number(d), d.head.isResponse, d'.head.id, Number(d'), d'.head.isResponse);
    if Splits(key, |EncodeChain(m.payloads).value|, maxLen) {
      var i := PieceNumber(m, key, maxLen.value, d);
      var j := PieceNumber(m, key, maxLen.value, d');
    }
  }

  /** `sent` are datagrams of one message with this id and direction. */
  ghost predicate OfOne(sent: seq<Session.Datagram>, key: Keys, isResponse: bool, id: u32) {
    && (forall d :: d in sent ==> d.key == Some(key) && d.head.isResponse == isResponse && d.head.id == id)
    && (forall d, d' :: d in sent && d' in sent && IvOf(d) == IvOf(d') ==> d == d')
  }

  lemma SendsOneIsOfOne(e: Endpoint, sent: seq<Session.Datagram>, isResponse: bool, id: u32)
    requires e.keys.Some? && SendsOne(e, sent, isResponse, id)
    ensures OfOne(sent, e.keys.value.outbound, isResponse, id)
  {
    if sent != [] {
      var m: Message :| m.id == id && m.isResponse == isResponse && Encode(e, m) == Ok(sent);
      var key, maxLen := e.keys.value.outbound, if e.peerFragments then Some(FRAGMENT_LEN) else None;
      assert Sealed(m, key, maxLen) == Ok(sent);
      forall d | d in sent ensures d.key == Some(key) && d.head.isResponse == isResponse && d.head.id == id {
        SealedIsPart(m, key, maxLen, d);
      }
      forall d, d' | d in sent && d' in sent && IvOf(d) == IvOf(d') ensures d == d' {
        OneMessageOneIvEach(m, key, maxLen, d, d');
      }
    }
  }

  /** What is sent with an id not counted yet reuses no IV. */
  lemma NewIdReusesNothing(x: Sender, sent: seq<Session.Datagram>, isResponse: bool, id: u32)
    requires x.e.keys.Some? && UnderOwnKeys(x) && NoReuse(x.sent)
    requires OfOne(sent, x.e.keys.value.outbound, isResponse, id)
    requires id == if isResponse then x.e.peerMessageId else x.e.messageId
    ensures NoReuse(x.sent + set d | d in sent)
  {
    forall d, d' | d in sent && d' in x.sent && d.key == d'.key ensures IvOf(d) != IvOf(d') {
      assert Counted(x.e, d');
      if IvOf(d) == IvOf(d') {
        AeadIvIsInjective(d.head.id, Number(d), d.head.isResponse, d'.head.id, Number(d'), d'.head.isResponse);
      }
    }
  }

  lemma ResendKeeps(x: Sender, o: Outcome)
    requires Inv(x) && Resends(x.e, o)
    ensures Inv(Sender(o.e, x.sent + (set d | d in o.sent), x.used + KeysOf(o.e)))
  {
    assert x.sent + (set d | d in o.sent) == x.sent;
  }

  lemma RespondKeeps(x: Sender, o: Outcome, decision: Decision)
    requires Inv(x) && Responds(x.e, o, decision)
    requires decision.RekeyIke? ==> decision.next.keys.outbound !in x.used
    ensures Inv(Sender(o.e, x.sent + (set d | d in o.sent), x.used + KeysOf(o.e)))
  {
    SendsOneIsOfOne(x.e, o.sent, true, x.e.peerMessageId);
    NewIdReusesNothing(x, o.sent, true, x.e.peerMessageId);
  }

  lemma AskKeeps(x: Sender, exchange: Exchange, payloads: seq<RawPayload>)
    requires Inv(x) && x.e.messageId < LAST_ID
    ensures Inv(Sends(x, AskFor(exchange, payloads)))
  {
    var o := Ask(x.e, exchange, payloads);
    if o.asked.Some? {
      assert SendsOne(x.e, o.sent, false, x.e.messageId) by {
        assert Encode(x.e, o.asked.value) == Ok(o.sent);
      }
      SendsOneIsOfOne(x.e, o.sent, false, x.e.messageId);
      NewIdReusesNothing(x, o.sent, false, x.e.messageId);
    } else {
      ResendKeeps(x, o);
    }
  }

  lemma ArriveKeeps(x: Sender, d: Session.Datagram, decision: Decision)
    requires Inv(x) && Feasible(x, Event.Datagram(d, decision))
    ensures Inv(Sends(x, Event.Datagram(d, decision)))
  {
    ArriveSound(x.e, d, decision);
    var o := Arrive(x.e, d, decision);
    if Resends(x.e, o) {
      ResendKeeps(x, o);
    } else {
      RespondKeeps(x, o, decision);
    }
  }

  lemma TimerKeeps(x: Sender, o: Outcome)
    requires Inv(x) && o in {Resend(x.e), Quiet(x.e.(waiting := None))}
    ensures Inv(Sender(o.e, x.sent + (set d | d in o.sent), x.used + KeysOf(o.e)))
  {
    ResendKeeps(x, o);
  }

  lemma SendKeepsInv(x: Sender, ev: Event)
    requires Inv(x) && Feasible(x, ev)
    ensures Inv(Sends(x, ev))
  {
    match ev
    case AskFor(exchange, payloads) => AskKeeps(x, exchange, payloads);
    case Datagram(d, decision) => ArriveKeeps(x, d, decision);
    case _ => TimerKeeps(x, Does(x.e, ev));
  }

  lemma {:induction false} RunKeepsIvs(start: Sender, events: seq<Event>, x: Sender)
    requires Begins(start) && Leads(start, events, x)
    ensures Inv(x)
    decreases |events|
  {
    if events != [] {
      var k := |events| - 1;
      var mid: Sender :| Leads(start, events[..k], mid) && Feasible(mid, events[k]) && x == Sends(mid, events[k]);
      RunKeepsIvs(start, events[..k], mid);
      SendKeepsInv(mid, events[k]);
    }
  }

  /** Over every run, whatever comes in: two datagrams sent under one key with
      one IV are one datagram, sent again. */
  lemma IvsNeverRepeat(start: Sender, events: seq<Event>, x: Sender, d: Session.Datagram, d': Session.Datagram)
    requires Begins(start) && Leads(start, events, x)
    requires d in x.sent && d' in x.sent && d.key == d'.key && IvOf(d) == IvOf(d')
    ensures d == d'
  {
    RunKeepsIvs(start, events, x);
  }

  /** The bound on the ids is needed: after the last one, the next request but
      one has the id, and so the IVs, of request 0. */
  lemma WrapRepeatsIv(e: Endpoint, exchange: Exchange, early: seq<RawPayload>, last: seq<RawPayload>, late: seq<RawPayload>)
    requires e.keys.Some? && e.messageId == LAST_ID && !e.peerFragments
    requires forall p :: p in [early, last, late] ==> Ask(e, exchange, p).asked.Some?
    ensures var first := Ask(e.(messageId := 0), exchange, early);
            var again := Ask(Ask(e, exchange, last).e, exchange, late);
            && |first.sent| == |again.sent| == 1
            && first.sent[0].key == again.sent[0].key && IvOf(first.sent[0]) == IvOf(again.sent[0])
            && (EncodeChain(early) != EncodeChain(late) ==> first.sent[0] != again.sent[0])
  {
    assert early in [early, last, late] && last in [early, last, late] && late in [early, last, late];
  }
}
