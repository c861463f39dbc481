/** Two endpoints of one IKE SA over a network that drops, repeats, reorders
    and forges datagrams: every request is executed at most once and a reply
    is the answer to that very request. */
module SessionSafety {
  import opened Bytes
  import opened Payloads
  import opened Messages
  import opened Reassembly
  import opened Session

  /** An endpoint with what it did: the requests it sent (the first with id
      `first`), those it executed (the first with id `peerFirst`) with their
      answers, and the replies it took. */
  datatype Node = Node(e: Endpoint, first: u32, peerFirst: u32, asked: seq<Message>,
                       executed: seq<PeerRequest>, answered: seq<Option<Message>>, replies: seq<Reply>)

  datatype Event =
    | AskFor(exchange: Exchange, payloads: seq<RawPayload>)
    | Deadline
    | Abandon
    | Datagram(d: Session.Datagram, decision: Decision)

  function Does(e: Endpoint, ev: Event): Outcome {
    match ev
    case AskFor(exchange, payloads) => Ask(e, exchange, payloads)
    case Deadline => Resend(e)
    case Abandon => Quiet(e.(waiting := None))
    case Datagram(d, decision) => Arrive(e, d, decision)
  }

  function Listed<T>(o: Option<T>): seq<T> {
    if o.Some? then [o.value] else []
  }

  function After(n: Node, o: Outcome): Node {
    n.(e := o.e,
       asked := n.asked + Listed(o.asked),
       executed := n.executed + Listed(o.executed),
       answered := n.answered + (if o.executed.Some? then [o.answered] else []),
       replies := n.replies + Listed(o.reply))
  }

  /** The two ends and every datagram ever sent. */
  datatype System = System(a: Node, b: Node, net: set<Session.Datagram>) {
    function At(left: bool): Node { if left then a else b }
  }

  function Step(s: System, left: bool, ev: Event): System {
    var o := Does(s.At(left).e, ev);
    var n := After(s.At(left), o);
    var net := s.net + set d | d in o.sent;
    if left then System(n, s.b, net) else System(s.a, n, net)
  }

  // ---- the messages of an end --------------------------------------------

  function OutKey(n: Node): Keys
    requires n.e.keys.Some?
  {
    n.e.keys.value.outbound
  }

  function MaxLen(n: Node): Option<nat> {
    if n.e.peerFragments then Some(FRAGMENT_LEN) else None
  }

  /** The request or the answer with this id. */
  function MessageAt(n: Node, isResponse: bool, id: u32): Option<Message> {
    if !isResponse then
      if n.first <= id < n.first + |n.asked| then Some(n.asked[id - n.first]) else None
    else
      if n.peerFirst <= id < n.peerFirst + |n.answered| then n.answered[id - n.peerFirst] else None
  }

  predicate IsPartOf(m: Message, key: Keys, maxLen: Option<nat>, d: Session.Datagram) {
    d.head == HeadOf(m) && Sealed(m, key, maxLen).Ok? && d in Sealed(m, key, maxLen).value
  }

  /** `d` is a datagram of a message of this end. */
  predicate Mine(n: Node, d: Session.Datagram)
    requires n.e.keys.Some?
  {
    var m := MessageAt(n, d.head.isResponse, d.head.id);
    m.Some? && IsPartOf(m.value, OutKey(n), MaxLen(n), d)
  }

  /** No payload of the type that means "no next payload". */
  predicate Proper(payloads: seq<RawPayload>) {
    forall i :: 0 <= i < |payloads| ==> payloads[i].kind != NO_NEXT
  }

  /** The pieces of a message that is split, if a receiver takes so many. */
  function PiecesOf(n: Node, m: Message): Option<Cut>
    requires n.e.keys.Some?
  {
    if EncodeChain(m.payloads).Ok? && Splits(OutKey(n), |EncodeChain(m.payloads).value|, MaxLen(n)) then
      var cut := CutOf(m, OutKey(n), FRAGMENT_LEN);
      if cut.Valid() then Some(cut) else None
    else None
  }

  /** Not split, or in so many pieces as a receiver takes. */
  predicate Receivable(n: Node, m: Message)
    requires n.e.keys.Some?
  {
    EncodeChain(m.payloads).Ok? && (Splits(OutKey(n), |EncodeChain(m.payloads).value|, MaxLen(n)) ==> PiecesOf(n, m).Some?)
  }

  /** The request and the answer with one id are not cut in as many pieces:
      the receiver keeps both in one reassembler, by id and total alone. */
  ghost predicate NoClash(n: Node)
    requires n.e.keys.Some?
  {
    forall id: u32 :: MessageAt(n, false, id).Some? && MessageAt(n, true, id).Some? ==>
      var request, answer := PiecesOf(n, MessageAt(n, false, id).value), PiecesOf(n, MessageAt(n, true, id).value);
      request.Some? && answer.Some? ==> |request.value.chunks| != |answer.value.chunks|
  }

  // ---- what every step keeps ----------------------------------------------

  predicate IsRequest(m: Message, id: int) { m.id == id && !m.isResponse && Proper(m.payloads) }

  predicate IsAnswer(m: Message, id: int) { m.id == id && m.isResponse && Proper(m.payloads) }

  ghost predicate LogsMatch(n: Node) {
    && n.e.keys.Some?
    && n.e.messageId == n.first + |n.asked|
    && n.e.peerMessageId == n.peerFirst + |n.executed| && |n.answered| == |n.executed|
    && (forall i :: 0 <= i < |n.asked| ==> IsRequest(n.asked[i], n.first + i))
    && (forall i :: 0 <= i < |n.answered| && n.answered[i].Some? ==> IsAnswer(n.answered[i].value, n.peerFirst + i))
  }

  ghost predicate IsSent(n: Node, isResponse: bool, id: u32, ds: seq<Session.Datagram>)
    requires n.e.keys.Some?
  {
    var m := MessageAt(n, isResponse, id);
    m.Some? && Sealed(m.value, OutKey(n), MaxLen(n)) == Ok(ds)
  }

  /** What waits, and what is kept to be sent again, are messages sent. */
  ghost predicate KeepsSent(n: Node)
    requires n.e.keys.Some?
  {
    && (n.e.lastResponse.Some? ==> IsSent(n, true, n.e.lastResponse.value.0, n.e.lastResponse.value.1))
    && (n.answered != [] && n.answered[|n.answered| - 1].Some? ==>
          n.e.lastResponse.Some? && n.e.lastResponse.value.0 == n.e.peerMessageId - 1)
    && (n.e.waiting.Some? ==> IsSent(n, false, n.e.waiting.value.id, n.e.waiting.value.datagrams))
  }

  /** The ids a reply may still have begin here. */
  function Awaited(e: Endpoint): u32 {
    if e.waiting.Some? then e.waiting.value.id else e.messageId
  }

  /** One reply to a request, at the most. */
  ghost predicate RepliesOnce(n: Node) {
    && Awaited(n.e) <= n.e.messageId
    && (forall i :: 0 <= i < |n.replies| ==> n.replies[i].head.id < Awaited(n.e))
    && (forall i, j :: 0 <= i < j < |n.replies| ==> n.replies[i].head.id < n.replies[j].head.id)
  }

  ghost predicate AllMine(n: Node, ds: seq<Session.Datagram>)
    requires n.e.keys.Some?
  {
    forall d :: d in ds ==> d.key == Some(OutKey(n)) && Mine(n, d)
  }

  ghost predicate NetIsMine(n: Node, net: set<Session.Datagram>)
    requires n.e.keys.Some?
  {
    forall d :: d in net && d.key == Some(OutKey(n)) ==> Mine(n, d)
  }

  ghost predicate Own(n: Node, net: set<Session.Datagram>) {
    LogsMatch(n) && KeepsSent(n) && RepliesOnce(n) && NetIsMine(n, net)
  }

  predicate IsRequestOf(request: PeerRequest, peer: Node, m: Message)
    requires peer.e.keys.Some?
  {
    request == PeerRequest(HeadOf(m), m.payloads) && Receivable(peer, m)
  }

  ghost predicate IsReplyOf(r: Reply, peer: Node) {
    && r.head.isResponse
    && var m := MessageAt(peer, true, r.head.id);
       m.Some? && r == Reply(HeadOf(m.value), m.value.payloads)
  }

  ghost predicate PiecesAre(s: Pieces, peer: Node, isResponse: bool)
    requires peer.e.keys.Some? && s.messageId.Some?
  {
    var m := MessageAt(peer, isResponse, s.messageId.value);
    m.Some? && PiecesOf(peer, m.value).Some? && HoldsOnly(s, PiecesOf(peer, m.value).value)
  }

  /** The pieces held are of one message of the peer. */
  ghost predicate PiecesHeard(s: Pieces, peer: Node)
    requires peer.e.keys.Some?
  {
    s.messageId.Some? ==>
      exists isResponse: bool :: PiecesAre(s, peer, isResponse)
  }

  /** What `n` executed and took is what `peer` asked and answered. */
  ghost predicate Heard(n: Node, peer: Node) {
    && peer.e.keys.Some?
    && n.peerFirst == peer.first
    && |n.executed| <= |peer.asked|
    && (forall i :: 0 <= i < |n.executed| ==> IsRequestOf(n.executed[i], peer, peer.asked[i]))
    && (forall i :: 0 <= i < |n.replies| ==> IsReplyOf(n.replies[i], peer))
    && PiecesHeard(n.e.pieces, peer)
  }

  ghost predicate KeysMatch(a: Node, b: Node) {
    && a.e.keys.Some? && b.e.keys.Some?
    && a.e.keys.value.outbound == b.e.keys.value.inbound
    && a.e.keys.value.inbound == b.e.keys.value.outbound
    && a.e.keys.value.outbound != b.e.keys.value.outbound
  }

  ghost predicate Inv(s: System) {
    && KeysMatch(s.a, s.b)
    && Own(s.a, s.net) && Own(s.b, s.net)
    && Heard(s.a, s.b) && Heard(s.b, s.a)
  }

  // ---- opening what the peer sent ------------------------------------------

  ghost predicate AddHears(s: Pieces, peer: Node, id: u32, content: Decrypted, payloads: seq<RawPayload>)
    requires peer.e.keys.Some?
  {
    var (s', r) := Add(s, id, content);
    && PiecesHeard(s', peer)
    && (r.Ok? && r.value.Some? ==> Whole(r.value.value) == Ok(Some(payloads)))
  }

  lemma BadPieceHeard(s: Pieces, peer: Node, id: u32, content: Decrypted, payloads: seq<RawPayload>)
    requires peer.e.keys.Some? && PiecesHeard(s, peer)
    requires content.fragment.Some? && BadNumbering(content.fragment.value.0, content.fragment.value.1)
    ensures AddHears(s, peer, id, content, payloads)
    ensures Add(s, id, content).1.Err?
  {
  }

  lemma AddStays(s: Pieces, id: u32, cut: Cut, number: nat, payloads: seq<RawPayload>)
    requires Clean(s, id, cut) && 1 <= number <= |cut.chunks|
    requires ParseChain(cut.first, Join(cut.chunks)) == Ok(payloads)
    ensures var (s', r) := Add(s, id, cut.Piece(number));
            && (s'.messageId.Some? ==> s'.messageId == Some(id) && HoldsOnly(s', cut))
            && (r.Ok? && r.value.Some? ==> Whole(r.value.value) == Ok(Some(payloads)))
    ensures Add(s, id, cut.Piece(number)).1.Ok?
  {
    AddPiece(s, id, cut, number);
    assert Whole(cut.Whole()) == Ok(Some(payloads));
  }

  lemma HeldArePieces(s: Pieces, peer: Node, m: Message, isResponse: bool, id: u32, cut: Cut)
    requires peer.e.keys.Some? && MessageAt(peer, isResponse, id) == Some(m) && PiecesOf(peer, m) == Some(cut)
    requires s.messageId.Some? ==> s.messageId == Some(id) && HoldsOnly(s, cut)
    ensures PiecesHeard(s, peer)
  {
    assert s.messageId.Some? ==> PiecesAre(s, peer, isResponse);
  }

  /** Pieces held under this id and this total are of this cut. */
  lemma HeldAreClean(s: Pieces, peer: Node, isResponse: bool, id: u32, m: Message, cut: Cut)
    requires peer.e.keys.Some? && NoClash(peer) && PiecesHeard(s, peer)
    requires MessageAt(peer, isResponse, id) == Some(m) && PiecesOf(peer, m) == Some(cut)
    ensures Clean(s, id, cut)
  {
    if s.messageId == Some(id) && s.total == |cut.chunks| {
      var held: bool :| PiecesAre(s, peer, held);
      assert held == isResponse;
    }
  }

  lemma ValidPieceHeard(s: Pieces, peer: Node, m: Message, isResponse: bool, id: u32, cut: Cut, number: nat)
    requires peer.e.keys.Some? && NoClash(peer) && PiecesHeard(s, peer)
    requires MessageAt(peer, isResponse, id) == Some(m) && PiecesOf(peer, m) == Some(cut)
    requires cut.Valid() && 1 <= number <= |cut.chunks|
    requires ParseChain(cut.first, Join(cut.chunks)) == Ok(m.payloads)
    ensures AddHears(s, peer, id, cut.Piece(number), m.payloads)
    ensures Add(s, id, cut.Piece(number)).1.Ok?
  {
    HeldAreClean(s, peer, isResponse, id, m, cut);
    AddStays(s, id, cut, number, m.payloads);
    HeldArePieces(Add(s, id, cut.Piece(number)).0, peer, m, isResponse, id, cut);
  }

  /** A datagram with a fragment number is a piece of the message's cut. */
  lemma WhichPiece(m: Message, key: Keys, maxLen: Option<nat>, d: Session.Datagram) returns (k: nat)
    requires IsPartOf(m, key, maxLen, d) && d.content.fragment.Some?
    ensures EncodeChain(m.payloads).Ok? && maxLen.Some? && Splits(key, |EncodeChain(m.payloads).value|, maxLen)
    ensures var cut := CutOf(m, key, maxLen.value);
            && k < |cut.chunks| < 0x1_0000
            && d.content.fragment == Some((k + 1, |cut.chunks|))
            && (cut.Valid() ==> d.content == cut.Piece(k + 1))
  {
    var sealed := Sealed(m, key, maxLen).value;
    k :| 0 <= k < |sealed| && sealed[k] == d;
    SealedPiece(m, key, maxLen.value, k);
  }

  /** The piece that a datagram holds: taken to the pieces of one message,
      or refused if they are too many. */
  lemma PieceAdds(s: Pieces, peer: Node, m: Message, isResponse: bool, id: u32, content: Decrypted, cut: Cut, k: nat)
    requires peer.e.keys.Some? && NoClash(peer) && PiecesHeard(s, peer)
    requires MessageAt(peer, isResponse, id) == Some(m) && PiecesOf(peer, m) == (if cut.Valid() then Some(cut) else None)
    requires ParseChain(cut.first, Join(cut.chunks)) == Ok(m.payloads)
    requires k < |cut.chunks| < 0x1_0000 && content.fragment == Some((k + 1, |cut.chunks|))
    requires cut.Valid() ==> content == cut.Piece(k + 1)
    ensures AddHears(s, peer, id, content, m.payloads)
    ensures cut.Valid() <==> Add(s, id, content).1.Ok?
  {
    if cut.Valid() {
      ValidPieceHeard(s, peer, m, isResponse, id, cut, k + 1);
    } else {
      BadPieceHeard(s, peer, id, content, m.payloads);
    }
  }

  lemma PieceHeard(s: Pieces, peer: Node, m: Message, d: Session.Datagram)
    requires peer.e.keys.Some? && NoClash(peer) && PiecesHeard(s, peer)
    requires MessageAt(peer, d.head.isResponse, d.head.id) == Some(m) && d.content.fragment.Some?
    requires IsPartOf(m, OutKey(peer), MaxLen(peer), d) && Proper(m.payloads)
    ensures AddHears(s, peer, d.head.id, d.content, m.payloads)
    ensures Receivable(peer, m) <==> Add(s, d.head.id, d.content).1.Ok?
  {
    var k := WhichPiece(m, OutKey(peer), MaxLen(peer), d);
    ChainComesBack(m.payloads);
    ChunksJoin(EncodeChain(m.payloads).value, FRAGMENT_LEN - Overhead(OutKey(peer)));
    PieceAdds(s, peer, m, d.head.isResponse, d.head.id, d.content, CutOf(m, OutKey(peer), FRAGMENT_LEN), k);
  }

  lemma WholeHeard(peer: Node, m: Message, d: Session.Datagram)
    requires peer.e.keys.Some? && d.content.fragment.None?
    requires IsPartOf(m, OutKey(peer), MaxLen(peer), d) && Proper(m.payloads)
    ensures Receivable(peer, m) && Whole(d.content) == Ok(Some(m.payloads))
  {
    ChainComesBack(m.payloads);
  }

  /** What opens is a message of the peer, whole, and the pieces kept stay of
      one message; a message that can be received opens, or a piece of it is
      kept. */
  lemma OpenHears(n: Node, peer: Node, d: Session.Datagram)
    requires KeysMatch(n, peer) && LogsMatch(peer) && (d.content.fragment.Some? ==> NoClash(peer)) && PiecesHeard(n.e.pieces, peer)
    requires d.key == Some(OutKey(peer)) ==> Mine(peer, d)
    ensures var (e', r) := Open(n.e, n.e.keys.value, d);
            && e' == n.e.(pieces := e'.pieces) && PiecesHeard(e'.pieces, peer)
            && (r.Ok? <==> d.key == Some(OutKey(peer)) && Receivable(peer, MessageAt(peer, d.head.isResponse, d.head.id).value))
            && (r.Ok? && r.value.Some? ==> r.value.value == MessageAt(peer, d.head.isResponse, d.head.id).value.payloads)
  {
    if d.key == Some(OutKey(peer)) {
      var m := MessageAt(peer, d.head.isResponse, d.head.id).value;
      assert Proper(m.payloads);
      if d.content.fragment.Some? {
        PieceHeard(n.e.pieces, peer, m, d);
      } else {
        WholeHeard(peer, m, d);
      }
    }
  }

  // ---- what one step does ---------------------------------------------------

  ghost predicate Waits(e: Endpoint, e': Endpoint) {
    e'.waiting.Some? ==> e.waiting.Some? && e'.waiting.value.id == e.waiting.value.id && e'.waiting.value.datagrams == e.waiting.value.datagrams
  }

  /** Neither asks nor executes; what it sends was sent before. */
  ghost predicate Passes(e: Endpoint, o: Outcome) {
    && o.asked.None? && o.executed.None?
    && o.e.keys == e.keys && o.e.peerFragments == e.peerFragments
    && o.e.messageId == e.messageId && o.e.peerMessageId == e.peerMessageId
    && o.e.lastResponse == e.lastResponse && Waits(e, o.e)
    && (o.sent == [] || (e.waiting.Some? && o.sent == e.waiting.value.datagrams)
        || (e.lastResponse.Some? && o.sent == e.lastResponse.value.1))
  }

  /** Executes the request with the next id, and answers it if it can. */
  ghost predicate Executes(e: Endpoint, o: Outcome) {
    && o.asked.None? && o.executed.Some? && o.reply.None?
    && o.e.keys == e.keys && o.e.peerFragments == e.peerFragments
    && o.e.messageId == e.messageId && o.e.peerMessageId == e.peerMessageId + 1
    && Waits(e, o.e)
    && (if o.answered.Some?
        then IsAnswer(o.answered.value, e.peerMessageId) && Encode(e, o.answered.value) == Ok(o.sent)
             && o.e.lastResponse == Some((e.peerMessageId, o.sent))
        else o.sent == [] && o.e.lastResponse == e.lastResponse)
  }

  /** What it takes out of `d` is what `d` opens to. */
  ghost predicate Takes(e: Endpoint, o: Outcome, d: Session.Datagram)
    requires e.keys.Some?
  {
    var (e', r) := Open(e, e.keys.value, d);
    && (o.e.pieces == e.pieces || o.e.pieces == e'.pieces)
    && (o.reply.Some? ==>
          && r.Ok? && r.value.Some? && o.reply.value == Reply(d.head, r.value.value)
          && d.head.isResponse && e.waiting.Some? && d.head.id == e.waiting.value.id && o.e.waiting.None?)
    && (o.executed.Some? ==>
          && r.Ok? && r.value.Some? && o.executed.value == PeerRequest(d.head, r.value.value)
          && !d.head.isResponse && d.head.id == e.peerMessageId)
  }

  predicate ProperAnswer(decision: Decision) {
    match decision
    case Refuse(notify) => notify.kind != NO_NEXT
    case Unintelligible => true
    case RekeyIke(answer, _) => Proper(answer)
    case RekeyChild(answer, _, _) => Proper(answer)
  }

  /** The rekeyed SA did not take over. */
  predicate NoSwitch(e: Endpoint, o: Outcome) {
    e.nextIke.Some? ==> o.e.nextIke.Some?
  }

  /** As `Executes`, once the id is counted. */
  ghost predicate Serves(e: Endpoint, request: PeerRequest, o: Outcome) {
    && o.asked.None? && o.executed == Some(request) && o.reply.None?
    && o.e.keys == e.keys && o.e.peerFragments == e.peerFragments && o.e.pieces == e.pieces
    && o.e.messageId == e.messageId && o.e.peerMessageId == e.peerMessageId && o.e.waiting == e.waiting
    && (if o.answered.Some?
        then IsAnswer(o.answered.value, request.head.id) && Encode(e, o.answered.value) == Ok(o.sent)
             && o.e.lastResponse == Some((request.head.id, o.sent))
        else o.sent == [] && o.e.lastResponse == e.lastResponse)
  }

  lemma AnswerServes(e: Endpoint, request: PeerRequest, m: Message)
    requires IsAnswer(m, request.head.id)
    ensures Serves(e, request, Answer(e, request, m))
  {
  }

  lemma {:induction false} InformAnswersProperly(children: seq<Child>, isUp: bool, payloads: seq<RawPayload>)
    ensures Proper(Inform(children, isUp, payloads).answer)
  {
    if payloads != [] {
      InformAnswersProperly(children, isUp, payloads[..|payloads| - 1]);
    }
  }

  lemma InformationalServes(e: Endpoint, request: PeerRequest)
    requires NoSwitch(e, OnInformational(e, request))
    ensures Serves(e, request, OnInformational(e, request))
  {
    InformAnswersProperly(e.children, e.isUp, request.payloads);
    var i := Inform(e.children, e.isUp, request.payloads);
    AnswerServes(e.(children := i.children), request, NewResponse(e, Informational, request.head.id, i.answer));
  }

  lemma CreateChildServes(e: Endpoint, request: PeerRequest, decision: Decision)
    requires ProperAnswer(decision)
    ensures Serves(e, request, OnCreateChildSa(e, request, decision))
  {
    AnswerServes(e, request, NewResponse(e, CreateChildSa, request.head.id, [NotifyOf(INVALID_SYNTAX)]));
    match decision
    case Refuse(notify) => AnswerServes(e, request, NewResponse(e, CreateChildSa, request.head.id, [notify]));
    case Unintelligible =>
    case RekeyIke(answer, _) => AnswerServes(e, request, NewResponse(e, CreateChildSa, request.head.id, answer));
    case RekeyChild(answer, _, _) => AnswerServes(e, request, NewResponse(e, CreateChildSa, request.head.id, answer));
  }

  lemma ExecuteServes(e: Endpoint, request: PeerRequest, decision: Decision)
    requires ProperAnswer(decision) && NoSwitch(e, Execute(e, request, decision))
    ensures Serves(e, request, Execute(e, request, decision))
  {
    match request.head.exchange
    case Informational => InformationalServes(e, request);
    case CreateChildSa => CreateChildServes(e, request, decision);
    case _ => AnswerServes(e, request, NewResponse(e, request.head.exchange, request.head.id, [NotifyOf(INVALID_SYNTAX)]));
  }

  /** What a datagram makes an end do. */
  ghost predicate Shape(e: Endpoint, o: Outcome, d: Session.Datagram)
    requires e.keys.Some?
  {
    Takes(e, o, d) && if o.executed.Some? then Executes(e, o) else Passes(e, o)
  }

  /** Only the pieces change, and a request is what opens. */
  lemma OpenKeeps(e: Endpoint, d: Session.Datagram)
    requires e.keys.Some?
    ensures var (e', r) := Open(e, e.keys.value, d);
            && e' == e.(pieces := e'.pieces)
            && OpenRequest(e, d).0 in {e, e'}
            && (OpenRequest(e, d).1.Ok? && OpenRequest(e, d).1.value.Some? ==>
                  OpenRequest(e, d).0 == e' && r.Ok? && r.value.Some?
                  && OpenRequest(e, d).1.value.value == PeerRequest(d.head, r.value.value))
  {
  }

  lemma ServesShape(e: Endpoint, e': Endpoint, request: PeerRequest, o: Outcome, d: Session.Datagram)
    requires e.keys.Some? && e.peerMessageId < LAST_ID && e' == e.(pieces := e'.pieces)
    requires Open(e, e.keys.value, d).0 == e' && Open(e, e.keys.value, d).1 == Ok(Some(request.payloads))
    requires request.head == d.head && !d.head.isResponse && d.head.id == e.peerMessageId
    requires Serves(e'.(peerMessageId := e.peerMessageId + 1), request, o)
    ensures Shape(e, o, d)
  {
  }

  lemma QuietShape(e: Endpoint, e': Endpoint, d: Session.Datagram)
    requires e.keys.Some? && e' in {e, Open(e, e.keys.value, d).0}
    ensures Shape(e, Quiet(e'), d)
    ensures e.lastResponse.Some? ==> Shape(e, Quiet(e').(sent := e.lastResponse.value.1), d)
  {
    OpenKeeps(e, d);
  }

  lemma ServeOpened(e: Endpoint, e': Endpoint, r: Result<Option<PeerRequest>>, d: Session.Datagram, decision: Decision)
    requires e.keys.Some? && ProperAnswer(decision) && e.peerMessageId < LAST_ID
    requires !d.head.isResponse && d.head.id == e.peerMessageId && e' == e.(pieces := e'.pieces)
    requires r.Ok? && r.value.Some? ==> r.value.value.head == d.head && Open(e, e.keys.value, d) == (e', Ok(Some(r.value.value.payloads)))
    requires e' in {e, Open(e, e.keys.value, d).0} && NoSwitch(e, Serve((e', r), decision))
    ensures Shape(e, Serve((e', r), decision), d)
  {
    if r.Ok? && r.value.Some? {
      var e1 := e'.(peerMessageId := e.peerMessageId + 1);
      ExecuteServes(e1, r.value.value, decision);
      ServesShape(e, e', r.value.value, Execute(e1, r.value.value, decision), d);
    } else {
      QuietShape(e, e', d);
    }
  }

  lemma ServeShape(e: Endpoint, d: Session.Datagram, decision: Decision)
    requires e.keys.Some? && ProperAnswer(decision) && e.peerMessageId < LAST_ID
    requires !d.head.isResponse && d.head.id == e.peerMessageId
    requires NoSwitch(e, Serve(OpenRequest(e, d), decision))
    ensures Shape(e, Serve(OpenRequest(e, d), decision), d)
  {
    OpenKeeps(e, d);
    ServeOpened(e, OpenRequest(e, d).0, OpenRequest(e, d).1, d, decision);
  }

  lemma HandleShape(e: Endpoint, d: Session.Datagram, decision: Decision)
    requires e.keys.Some? && ProperAnswer(decision) && e.peerMessageId < LAST_ID
    requires NoSwitch(e, HandlePacket(e, d, decision))
    ensures Shape(e, HandlePacket(e, d, decision), d)
  {
    if !d.head.isResponse && (d.head.spiI, d.head.spiR) == (e.spiI, e.spiR) && d.head.id == e.peerMessageId {
      ServeShape(e, d, decision);
    } else {
      OpenKeeps(e, d);
      QuietShape(e, e, d);
      QuietShape(e, OpenRequest(e, d).0, d);
    }
  }

  lemma SettledShape(e: Endpoint, o: Outcome, d: Session.Datagram)
    requires e.keys.Some? && Shape(e, o, d)
    ensures Shape(e, o.(e := Settled(o.e)), d)
  {
  }

  lemma ReplyPasses(e: Endpoint, e': Endpoint, r: Result<Option<seq<RawPayload>>>, d: Session.Datagram)
    requires e.keys.Some? && e.waiting.Some? && d.head.isResponse && d.head.id == e.waiting.value.id
    requires e' in {e, Open(e, e.keys.value, d).0} && e' == e.(pieces := e'.pieces)
    requires r.Ok? && r.value.Some? ==> Open(e, e.keys.value, d) == (e', r)
    ensures Shape(e, if r.Ok? && r.value.Some? then Quiet(e'.(waiting := None)).(reply := Some(Reply(d.head, r.value.value)))
                     else Quiet(Settled(e')), d)
  {
  }

  lemma OpenResponseKeeps(e: Endpoint, d: Session.Datagram)
    requires e.keys.Some?
    ensures var (e', r) := OpenResponse(e, d);
            && e' in {e, Open(e, e.keys.value, d).0} && e' == e.(pieces := e'.pieces)
            && (r.Ok? && r.value.Some? ==> Open(e, e.keys.value, d) == (e', r))
  {
    OpenKeeps(e, d);
  }

  lemma ReplyShape(e: Endpoint, d: Session.Datagram, decision: Decision)
    requires e.keys.Some? && e.waiting.Some? && d.head.isResponse && d.head.id == e.waiting.value.id
    ensures Shape(e, Arrive(e, d, decision), d)
  {
    OpenResponseKeeps(e, d);
    ReplyPasses(e, OpenResponse(e, d).0, OpenResponse(e, d).1, d);
  }

  lemma ArriveShape(e: Endpoint, d: Session.Datagram, decision: Decision)
    requires e.keys.Some? && ProperAnswer(decision) && e.peerMessageId < LAST_ID
    requires NoSwitch(e, Arrive(e, d, decision))
    ensures Shape(e, Arrive(e, d, decision), d)
  {
    if e.waiting.Some? && d.head.isResponse && d.head.id == e.waiting.value.id {
      ReplyShape(e, d, decision);
    } else {
      HandleShape(e, d, decision);
      SettledShape(e, HandlePacket(e, d, decision), d);
    }
  }

  // ---- the logs only grow ---------------------------------------------------

  /** `n'` is `n` with more in its logs, under the same keys. */
  ghost predicate Grows(n: Node, n': Node) {
    && n'.first == n.first && n'.peerFirst == n.peerFirst
    && n'.e.keys == n.e.keys && n'.e.peerFragments == n.e.peerFragments
    && n.asked <= n'.asked && n.executed <= n'.executed && n.answered <= n'.answered
  }

  lemma MessagesStay(n: Node, n': Node, isResponse: bool, id: u32)
    requires Grows(n, n') && MessageAt(n, isResponse, id).Some?
    ensures MessageAt(n', isResponse, id) == MessageAt(n, isResponse, id)
  {
  }

  lemma MineStays(n: Node, n': Node, d: Session.Datagram)
    requires n.e.keys.Some? && Grows(n, n') && Mine(n, d)
    ensures Mine(n', d)
  {
    MessagesStay(n, n', d.head.isResponse, d.head.id);
  }

  lemma HeardStays(peer: Node, n: Node, n': Node)
    requires Grows(n, n') && Heard(peer, n)
    ensures Heard(peer, n')
  {
    forall i | 0 <= i < |peer.replies| ensures IsReplyOf(peer.replies[i], n') {
      MessagesStay(n, n', true, peer.replies[i].head.id);
    }
    if peer.e.pieces.messageId.Some? {
      var isResponse: bool :| PiecesAre(peer.e.pieces, n, isResponse);
      MessagesStay(n, n', isResponse, peer.e.pieces.messageId.value);
      assert PiecesAre(peer.e.pieces, n', isResponse);
    }
  }

  // ---- a step keeps the invariant -------------------------------------------

  /** The datagrams of a message are of that message. */
  lemma SealedIsPart(m: Message, key: Keys, maxLen: Option<nat>, d: Session.Datagram)
    requires Sealed(m, key, maxLen).Ok? && d in Sealed(m, key, maxLen).value
    ensures d.key == Some(key) && IsPartOf(m, key, maxLen, d)
  {
  }

  lemma SentIsMine(n: Node, isResponse: bool, id: u32, ds: seq<Session.Datagram>)
    requires LogsMatch(n) && IsSent(n, isResponse, id, ds)
    ensures AllMine(n, ds)
  {
    var m := MessageAt(n, isResponse, id).value;
    forall d | d in ds ensures d.key == Some(OutKey(n)) && Mine(n, d) {
      SealedIsPart(m, OutKey(n), MaxLen(n), d);
    }
  }

  lemma SentStays(n: Node, n': Node, isResponse: bool, id: u32, ds: seq<Session.Datagram>)
    requires n.e.keys.Some? && Grows(n, n') && IsSent(n, isResponse, id, ds)
    ensures IsSent(n', isResponse, id, ds)
  {
    MessagesStay(n, n', isResponse, id);
  }

  lemma NetStaysMine(n: Node, n': Node, net: set<Session.Datagram>, sent: seq<Session.Datagram>)
    requires n.e.keys.Some? && Grows(n, n') && NetIsMine(n, net) && AllMine(n', sent)
    ensures NetIsMine(n', net + set d | d in sent)
  {
    forall d | d in net && d.key == Some(OutKey(n)) ensures Mine(n', d) {
      MineStays(n, n', d);
    }
  }

  /** The logs stay as they are, but for a reply. */
  lemma PassKeepsLogs(n: Node, o: Outcome)
    requires n.e.keys.Some? && Passes(n.e, o)
    ensures var n' := After(n, o);
            && Grows(n, n') && n'.e == o.e && n'.asked == n.asked && n'.executed == n.executed && n'.answered == n.answered
            && (LogsMatch(n) ==> LogsMatch(n'))
  {
  }

  lemma PassKeepsReplies(n: Node, o: Outcome)
    requires LogsMatch(n) && KeepsSent(n) && RepliesOnce(n) && Passes(n.e, o)
    requires o.reply.Some? ==> n.e.waiting.Some? && o.reply.value.head.id == n.e.waiting.value.id && o.e.waiting.None?
    ensures RepliesOnce(After(n, o))
  {
  }

  lemma PassKeepsSent(n: Node, n': Node, o: Outcome)
    requires LogsMatch(n) && LogsMatch(n') && KeepsSent(n) && Passes(n.e, o) && Grows(n, n')
    requires n'.e == o.e && n'.asked == n.asked && n'.executed == n.executed && n'.answered == n.answered
    ensures KeepsSent(n') && AllMine(n', o.sent)
  {
    if n.e.lastResponse.Some? {
      SentStays(n, n', true, n.e.lastResponse.value.0, n.e.lastResponse.value.1);
      SentIsMine(n', true, n.e.lastResponse.value.0, n.e.lastResponse.value.1);
    }
    if n.e.waiting.Some? {
      SentStays(n, n', false, n.e.waiting.value.id, n.e.waiting.value.datagrams);
      SentIsMine(n', false, n.e.waiting.value.id, n.e.waiting.value.datagrams);
    }
  }

  /** A step that passes leaves the logs as they are, but for a reply. */
  lemma PassKeepsOwn(n: Node, o: Outcome, net: set<Session.Datagram>)
    requires Own(n, net) && Passes(n.e, o)
    requires o.reply.Some? ==> n.e.waiting.Some? && o.reply.value.head.id == n.e.waiting.value.id && o.e.waiting.None?
    ensures Own(After(n, o), net + set d | d in o.sent) && AllMine(After(n, o), o.sent)
  {
    PassKeepsLogs(n, o);
    PassKeepsReplies(n, o);
    PassKeepsSent(n, After(n, o), o);
    NetStaysMine(n, After(n, o), net, o.sent);
  }

  lemma ExecuteKeepsOwn(n: Node, o: Outcome, net: set<Session.Datagram>)
    requires Own(n, net) && Executes(n.e, o)
    ensures Own(After(n, o), net + set d | d in o.sent) && AllMine(After(n, o), o.sent)
  {
    var n' := After(n, o);
    assert Grows(n, n');
    if o.answered.Some? {
      assert MessageAt(n', true, n.e.peerMessageId) == o.answered;
      SentIsMine(n', true, n.e.peerMessageId, o.sent);
    } else if n.e.lastResponse.Some? {
      SentStays(n, n', true, n.e.lastResponse.value.0, n.e.lastResponse.value.1);
    }
    if n'.e.waiting.Some? {
      SentStays(n, n', false, n.e.waiting.value.id, n.e.waiting.value.datagrams);
    }
    NetStaysMine(n, n', net, o.sent);
  }

  /** Asks with the next id, and waits. */
  ghost predicate Asks(e: Endpoint, o: Outcome) {
    && o.asked.Some? && o.executed.None? && o.reply.None?
    && IsRequest(o.asked.value, e.messageId) && Encode(e, o.asked.value) == Ok(o.sent)
    && o.e == e.(messageId := WrappingAdd(e.messageId), waiting := Some(Waiting(e.messageId, o.sent, 1)))
  }

  lemma AsksKeepsOwn(n: Node, o: Outcome, net: set<Session.Datagram>)
    requires Own(n, net) && n.e.messageId < LAST_ID && Asks(n.e, o)
    ensures Own(After(n, o), net + set d | d in o.sent) && AllMine(After(n, o), o.sent)
  {
    var n' := After(n, o);
    assert Grows(n, n');
    assert MessageAt(n', false, n.e.messageId) == o.asked;
    SentIsMine(n', false, n.e.messageId, o.sent);
    if n.e.lastResponse.Some? {
      SentStays(n, n', true, n.e.lastResponse.value.0, n.e.lastResponse.value.1);
    }
    NetStaysMine(n, n', net, o.sent);
  }

  lemma AskKeepsOwn(n: Node, exchange: Exchange, payloads: seq<RawPayload>, net: set<Session.Datagram>)
    requires Own(n, net) && Proper(payloads) && n.e.messageId < LAST_ID
    ensures var o := Ask(n.e, exchange, payloads);
            Own(After(n, o), net + set d | d in o.sent) && AllMine(After(n, o), o.sent)
  {
    var o := Ask(n.e, exchange, payloads);
    if o.asked.Some? {
      AsksKeepsOwn(n, o, net);
    } else {
      PassKeepsOwn(n, o, net);
    }
  }

  /** What an end takes out of a datagram is what the peer put in. */
  lemma TakeKeepsHeard(n: Node, peer: Node, o: Outcome, d: Session.Datagram)
    requires KeysMatch(n, peer) && LogsMatch(n) && LogsMatch(peer) && NoClash(peer) && Heard(n, peer)
    requires Shape(n.e, o, d) && (d.key == Some(OutKey(peer)) ==> Mine(peer, d))
    ensures Heard(After(n, o), peer)
  {
    OpenHears(n, peer, d);
  }

  // ---- runs -------------------------------------------------------------------

  ghost predicate Allowed(n: Node, peer: Node, net: set<Session.Datagram>, ev: Event) {
    && n.e.keys.Some? && peer.e.keys.Some?
    && match ev
       case AskFor(_, payloads) => Proper(payloads) && n.e.messageId < LAST_ID
       case Datagram(d, decision) =>
         && (d in net || (d.key != Some(OutKey(n)) && d.key != Some(OutKey(peer))))
         && ProperAnswer(decision) && n.e.peerMessageId < LAST_ID && NoSwitch(n.e, Arrive(n.e, d, decision))
       case _ => true
  }

  /** What may happen next: datagrams that were sent, whenever and however
      often, or that neither end's key sealed; ids do not wrap, and the SA is
      not replaced by a rekeyed one. Unless `clash`, requests and answers of
      one id are told apart. */
  ghost predicate Possible(s: System, left: bool, ev: Event, clash: bool) {
    Allowed(s.At(left), s.At(!left), s.net, ev) && (clash || (ev.Datagram? ==> NoClash(s.At(!left))))
  }

  ghost predicate Runs(from: System, events: seq<(bool, Event)>, to: System, clash: bool)
    decreases |events|
  {
    if events == [] then from == to
    else
      var k := |events| - 1;
      exists mid: System :: Runs(from, events[..k], mid, clash)
        && Possible(mid, events[k].0, events[k].1, clash) && to == Step(mid, events[k].0, events[k].1)
  }

  ghost predicate Reaches(from: System, events: seq<(bool, Event)>, to: System) {
    Runs(from, events, to, false)
  }

  ghost predicate Fresh(n: Node, peer: Node, net: set<Session.Datagram>) {
    && n.e.keys.Some?
    && n.asked == [] && n.executed == [] && n.answered == [] && n.replies == []
    && n.e.messageId == n.first == peer.peerFirst && n.e.peerMessageId == n.peerFirst
    && n.e.lastResponse.None? && n.e.waiting.None? && n.e.pieces.messageId.None?
    && forall d :: d in net ==> d.key != Some(OutKey(n))
  }

  /** The keys just set, on both ends. */
  ghost predicate Start(s: System) {
    KeysMatch(s.a, s.b) && Fresh(s.a, s.b, s.net) && Fresh(s.b, s.a, s.net)
  }

  lemma StartHolds(s: System)
    requires Start(s)
    ensures Inv(s)
  {
  }

  lemma ArrivalStep(n: Node, peer: Node, o: Outcome, d: Session.Datagram, net: set<Session.Datagram>)
    requires KeysMatch(n, peer) && Own(n, net) && LogsMatch(peer) && NoClash(peer) && Heard(n, peer)
    requires Shape(n.e, o, d) && (d.key == Some(OutKey(peer)) ==> Mine(peer, d))
    ensures Own(After(n, o), net + set d | d in o.sent) && AllMine(After(n, o), o.sent)
    ensures Grows(n, After(n, o)) && Heard(After(n, o), peer)
  {
    TakeKeepsHeard(n, peer, o, d);
    if o.executed.Some? {
      ExecuteKeepsOwn(n, o, net);
    } else {
      PassKeepsOwn(n, o, net);
    }
  }

  /** An end's step: its own datagrams and logs stay sound, and what it took
      out is what the peer put in. */
  ghost predicate Advances(n: Node, peer: Node, o: Outcome, net: set<Session.Datagram>)
    requires n.e.keys.Some?
  {
    && Grows(n, After(n, o)) && Own(After(n, o), net + set d | d in o.sent)
    && AllMine(After(n, o), o.sent) && Heard(After(n, o), peer)
  }

  lemma DatagramAdvances(n: Node, peer: Node, d: Session.Datagram, decision: Decision, net: set<Session.Datagram>)
    requires KeysMatch(n, peer) && Own(n, net) && LogsMatch(peer) && NoClash(peer) && Heard(n, peer)
    requires (d.key == Some(OutKey(peer)) ==> Mine(peer, d))
    requires ProperAnswer(decision) && n.e.peerMessageId < LAST_ID && NoSwitch(n.e, Arrive(n.e, d, decision))
    ensures Advances(n, peer, Arrive(n.e, d, decision), net)
  {
    ArriveShape(n.e, d, decision);
    ArrivalStep(n, peer, Arrive(n.e, d, decision), d, net);
  }

  lemma TimerPasses(n: Node, peer: Node, o: Outcome)
    requires n.e.keys.Some? && Heard(n, peer) && o in {Resend(n.e), Quiet(n.e.(waiting := None))}
    ensures Passes(n.e, o) && o.reply.None? && Heard(After(n, o), peer)
  {
  }

  lemma TimerAdvances(n: Node, peer: Node, o: Outcome, net: set<Session.Datagram>)
    requires KeysMatch(n, peer) && Own(n, net) && Heard(n, peer)
    requires o in {Resend(n.e), Quiet(n.e.(waiting := None))}
    ensures Advances(n, peer, o, net)
  {
    TimerPasses(n, peer, o);
    PassKeepsLogs(n, o);
    PassKeepsOwn(n, o, net);
  }

  lemma NodeStep(n: Node, peer: Node, net: set<Session.Datagram>, ev: Event)
    requires KeysMatch(n, peer) && Own(n, net) && Own(peer, net) && Heard(n, peer)
    requires Allowed(n, peer, net, ev) && (ev.Datagram? ==> NoClash(peer))
    ensures Advances(n, peer, Does(n.e, ev), net)
  {
    match ev
    case AskFor(exchange, payloads) => AskKeepsOwn(n, exchange, payloads, net);
    case Datagram(d, decision) => DatagramAdvances(n, peer, d, decision, net);
    case _ => TimerAdvances(n, peer, Does(n.e, ev), net);
  }

  /** What one end sends leaves the other's datagrams as they were. */
  lemma PeerKeepsOwn(peer: Node, key: Keys, net: set<Session.Datagram>, sent: seq<Session.Datagram>)
    requires Own(peer, net) && key != OutKey(peer) && forall d :: d in sent ==> d.key == Some(key)
    ensures Own(peer, net + set d | d in sent)
  {
  }

  lemma StepKeepsInv(s: System, left: bool, ev: Event)
    requires Inv(s) && Possible(s, left, ev, false)
    ensures Inv(Step(s, left, ev))
  {
    var n, peer, o := s.At(left), s.At(!left), Does(s.At(left).e, ev);
    NodeStep(n, peer, s.net, ev);
    PeerKeepsOwn(peer, OutKey(n), s.net, o.sent);
    HeardStays(peer, n, After(n, o));
  }

  lemma {:induction false} RunKeepsInv(start: System, events: seq<(bool, Event)>, s: System)
    requires Start(start) && Reaches(start, events, s)
    ensures Inv(s)
    decreases |events|
  {
    if events == [] {
      StartHolds(start);
    } else {
      var k := |events| - 1;
      var mid: System :| Runs(start, events[..k], mid, false)
        && Possible(mid, events[k].0, events[k].1, false) && s == Step(mid, events[k].0, events[k].1);
      RunKeepsInv(start, events[..k], mid);
      StepKeepsInv(mid, events[k].0, events[k].1);
    }
  }

  /** The `i`-th request this end executed is the `i`-th the peer asked, whole. */
  ghost predicate ExecutedAsAsked(n: Node, peer: Node) {
    && |n.executed| <= |peer.asked|
    && forall i :: 0 <= i < |n.executed| ==> n.executed[i] == PeerRequest(HeadOf(peer.asked[i]), peer.asked[i].payloads)
  }

  /** Reply `r` is the answer the peer gave when it executed request `i` of
      this end, the one with the reply's id. */
  ghost predicate Answers(n: Node, peer: Node, r: Reply, i: nat) {
    && i < |peer.executed| == |peer.answered| <= |n.asked|
    && peer.executed[i] == PeerRequest(HeadOf(n.asked[i]), n.asked[i].payloads)
    && n.asked[i].id == r.head.id
    && peer.answered[i].Some?
    && r == Reply(HeadOf(peer.answered[i].value), peer.answered[i].value.payloads)
  }

  ghost predicate ExecutedOnce(n: Node) {
    forall i, j :: 0 <= i < j < |n.executed| ==> n.executed[i].head.id < n.executed[j].head.id
  }

  ghost predicate RepliedOnce(n: Node) {
    forall i, j :: 0 <= i < j < |n.replies| ==> n.replies[i].head.id < n.replies[j].head.id
  }

  ghost predicate RepliesAnswer(n: Node, peer: Node) {
    forall r :: r in n.replies ==> exists i: nat :: Answers(n, peer, r, i)
  }

  lemma HeardAnswers(n: Node, peer: Node)
    requires LogsMatch(n) && LogsMatch(peer) && Heard(n, peer) && Heard(peer, n)
    ensures ExecutedAsAsked(n, peer) && ExecutedOnce(n) && RepliesAnswer(n, peer)
  {
    forall r | r in n.replies ensures exists i: nat :: Answers(n, peer, r, i) {
      assert IsReplyOf(r, peer);
      assert Answers(n, peer, r, r.head.id - peer.peerFirst);
    }
  }

  /** Over every run: each end executes a prefix of the requests the other
      asked, in their order, each once and unchanged; every reply is the
      answer made for the very request it replies to; and no request gets two
      replies. */
  lemma ExactlyWhatWasAsked(start: System, events: seq<(bool, Event)>, s: System, left: bool)
    requires Start(start) && Reaches(start, events, s)
    ensures ExecutedAsAsked(s.At(left), s.At(!left)) && ExecutedOnce(s.At(left))
    ensures RepliesAnswer(s.At(left), s.At(!left)) && RepliedOnce(s.At(left))
  {
    RunKeepsInv(start, events, s);
    HeardAnswers(s.At(left), s.At(!left));
  }

  /** The request executed last, once more: its datagram, or one of its
      fragments. */
  ghost predicate IsRepeat(n: Node, peer: Node, d: Session.Datagram)
    requires peer.e.keys.Some?
  {
    && d.key == Some(OutKey(peer)) && !d.head.isResponse
    && (d.head.spiI, d.head.spiR) == (n.e.spiI, n.e.spiR)
    && n.executed != [] && d.head.id == n.executed[|n.executed| - 1].head.id
  }

  function LastAnswer(n: Node): Option<Message> {
    if n.answered == [] then None else n.answered[|n.answered| - 1]
  }

  /** Sends the datagrams of `m` again; nothing else happens, but that a
      fragment is taken to its pieces. */
  ghost predicate AnswersAgain(n: Node, m: Message, d: Session.Datagram, o: Outcome)
    requires n.e.keys.Some?
  {
    && Sealed(m, OutKey(n), MaxLen(n)) == Ok(o.sent)
    && o.executed.None? && o.answered.None? && o.asked.None? && o.reply.None?
    && o.e == Settled(Open(n.e, n.e.keys.value, d).0)
  }

  lemma RepeatResends(e: Endpoint, d: Session.Datagram, decision: Decision)
    requires e.keys.Some? && e.lastResponse.Some? && d.head.id == e.lastResponse.value.0 == WrappingSub(e.peerMessageId)
    requires !d.head.isResponse && (d.head.spiI, d.head.spiR) == (e.spiI, e.spiR)
    requires OpenRequest(e, d).1.Ok?
    ensures Arrive(e, d, decision) == Quiet(Settled(OpenRequest(e, d).0)).(sent := e.lastResponse.value.1)
  {
  }

  lemma RepeatOpens(n: Node, peer: Node, d: Session.Datagram)
    requires KeysMatch(n, peer) && LogsMatch(peer) && (d.content.fragment.Some? ==> NoClash(peer)) && PiecesHeard(n.e.pieces, peer)
    requires d.key == Some(OutKey(peer)) && Mine(peer, d)
    requires Receivable(peer, MessageAt(peer, d.head.isResponse, d.head.id).value)
    ensures OpenRequest(n.e, d).0 == Open(n.e, n.e.keys.value, d).0 && OpenRequest(n.e, d).1.Ok?
  {
    OpenHears(n, peer, d);
  }

  lemma LastIsKept(n: Node)
    requires LogsMatch(n) && KeepsSent(n) && LastAnswer(n).Some?
    ensures n.e.lastResponse.Some? && n.e.lastResponse.value.0 == n.e.peerMessageId - 1
    ensures Sealed(LastAnswer(n).value, OutKey(n), MaxLen(n)) == Ok(n.e.lastResponse.value.1)
  {
  }

  lemma RepeatIsLast(n: Node, peer: Node, d: Session.Datagram)
    requires LogsMatch(n) && LogsMatch(peer) && Heard(n, peer) && IsRepeat(n, peer, d)
    ensures d.head.id == n.e.peerMessageId - 1
    ensures MessageAt(peer, false, d.head.id).Some? && Receivable(peer, MessageAt(peer, false, d.head.id).value)
  {
    var i := |n.executed| - 1;
    assert IsRequestOf(n.executed[i], peer, peer.asked[i]) && IsRequest(peer.asked[i], peer.first + i);
  }

  lemma RepeatAnswered(n: Node, peer: Node, net: set<Session.Datagram>, d: Session.Datagram, decision: Decision)
    requires KeysMatch(n, peer) && Own(n, net) && Own(peer, net) && Heard(n, peer) && d in net
    requires (d.content.fragment.Some? ==> NoClash(peer)) && IsRepeat(n, peer, d) && LastAnswer(n).Some?
    ensures AnswersAgain(n, LastAnswer(n).value, d, Arrive(n.e, d, decision))
  {
    LastIsKept(n);
    RepeatIsLast(n, peer, d);
    RepeatOpens(n, peer, d);
    RepeatResends(n.e, d, decision);
  }

  /** Over every run: a request received again, once executed and answered, is
      answered with the same datagrams and executes nothing, whether it came
      whole or any fragment of it did. */
  lemma RepeatGetsSameAnswer(start: System, events: seq<(bool, Event)>, s: System, left: bool, d: Session.Datagram, decision: Decision)
    requires Start(start) && Reaches(start, events, s) && d in s.net
    requires s.At(!left).e.keys.Some? && (d.content.fragment.Some? ==> NoClash(s.At(!left)))
    requires IsRepeat(s.At(left), s.At(!left), d) && LastAnswer(s.At(left)).Some?
    ensures s.At(left).e.keys.Some?
    ensures AnswersAgain(s.At(left), LastAnswer(s.At(left)).value, d, Arrive(s.At(left).e, d, decision))
  {
    RunKeepsInv(start, events, s);
    RepeatAnswered(s.At(left), s.At(!left), s.net, d, decision);
  }
}
