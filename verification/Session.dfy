/** The request and response engine of an IKE SA (RFC 7296 sections 2.1 to
    2.3): window-1 message ids, the cached response, and the switch to a
    rekeyed SA. Sealed datagrams are kept open beside the key that sealed them;
    `SessionWire` ties them to the bytes on the wire. */
module Session {
  import opened Bytes
  import opened Crypto
  import opened Payloads
  import opened Messages
  import opened Reassembly

  const FRAGMENT_LEN := 1280
  const RETRANSMITS := 5
  const NOTIFY: byte := 41
  const DELETE: byte := 42
  const INVALID_SYNTAX: u16 := 7
  const LAST_ID: u32 := 0xffff_ffff

  datatype Head = Head(exchange: Exchange, isResponse: bool, fromInitiator: bool, id: u32, spiI: u64, spiR: u64)

  function HeadOf(m: Message): Head {
    Head(m.exchange, m.isResponse, m.fromInitiator, m.id, m.initiatorSpi, m.responderSpi)
  }

  /** `key` sealed it; None for an unprotected one. */
  datatype Datagram = Datagram(head: Head, key: Option<Keys>, content: Decrypted)

  datatype IkeKeys = IkeKeys(outbound: Keys, inbound: Keys)

  /** An IKE SA the peer rekeyed, until it deletes the old one. */
  datatype NextIke = NextIke(spiI: u64, spiR: u64, keys: IkeKeys)

  datatype Child = Child(spiIn: u32, spiOut: u32, replaced: bool)

  /** A request of ours that waits for its response. */
  datatype Waiting = Waiting(id: u32, datagrams: seq<Datagram>, attempt: nat)

  datatype Endpoint = Endpoint(
    initiator: bool, spiI: u64, spiR: u64, keys: Option<IkeKeys>,
    messageId: u32, peerMessageId: u32, lastResponse: Option<(u32, seq<Datagram>)>,
    peerFragments: bool, pieces: Pieces, children: seq<Child>, isUp: bool, down: bool,
    nextIke: Option<NextIke>, waiting: Option<Waiting>)

  datatype PeerRequest = PeerRequest(head: Head, payloads: seq<RawPayload>)

  datatype Reply = Reply(head: Head, payloads: seq<RawPayload>)

  function WrappingAdd(id: u32): u32 { if id == LAST_ID then 0 else id + 1 }

  function WrappingSub(id: u32): u32 { if id == 0 then LAST_ID else id - 1 }

  // ---- sending ----------------------------------------------------------

  function PieceOf(m: Message, key: Keys, first: byte, chunks: seq<bytes>, i: nat): Datagram
    requires i < |chunks| < 0x1_0000
  {
    Datagram(HeadOf(m), Some(key), Decrypted(if i == 0 then first else NO_NEXT, chunks[i], Some((i + 1, |chunks|))))
  }

  /** The datagrams of a message under a key, as `encode_encrypted`. */
  function Sealed(m: Message, key: Keys, maxLen: Option<nat>): Result<seq<Datagram>> {
    var chain :- EncodeChain(m.payloads);
    var first := First(m.payloads);
    if Splits(key, |chain|, maxLen) then
      var chunks := Chunks(chain, maxLen.value - Overhead(key));
      if |chunks| >= 0x1_0000 then Err(TooLong)
      else Ok(seq(|chunks|, i requires 0 <= i < |chunks| => PieceOf(m, key, first, chunks, i)))
    else if PayloadLen(key, key.cipher.IvLen(), chain, false) >= 0x1_0000 then Err(TooLong)
    else Ok([Datagram(HeadOf(m), Some(key), Decrypted(first, chain, None))])
  }

  function Encode(e: Endpoint, m: Message): Result<seq<Datagram>> {
    match e.keys
    case None =>
      var chain :- EncodeChain(m.payloads);
      Ok([Datagram(HeadOf(m), None, Decrypted(First(m.payloads), chain, None))])
    case Some(keys) => Sealed(m, keys.outbound, if e.peerFragments then Some(FRAGMENT_LEN) else None)
  }

  function NewRequest(e: Endpoint, exchange: Exchange, payloads: seq<RawPayload>): Message {
    Message(exchange, false, e.initiator, e.messageId, e.spiI, e.spiR, payloads)
  }

  function NewResponse(e: Endpoint, exchange: Exchange, id: u32, payloads: seq<RawPayload>): Message {
    Message(exchange, true, e.initiator, id, e.spiI, e.spiR, payloads)
  }

  function Respond(e: Endpoint, m: Message): (Endpoint, Result<seq<Datagram>>) {
    match Encode(e, m)
    case Err(error) => (e, Err(error))
    case Ok(datagrams) => (e.(lastResponse := Some((m.id, datagrams))), Ok(datagrams))
  }

  // ---- opening ------------------------------------------------------------

  function Whole(content: Decrypted): Result<Option<seq<RawPayload>>> {
    var payloads :- ParseChain(content.nextPayload, content.inner);
    Ok(Some(payloads))
  }

  /** The decrypted datagram, put together with its fragments. */
  function Open(e: Endpoint, keys: IkeKeys, d: Datagram): (Endpoint, Result<Option<seq<RawPayload>>>) {
    if d.key != Some(keys.inbound) then (e, Err(Crypto))
    else if d.content.fragment.None? then (e, Whole(d.content))
    else
      var (pieces, r) := Add(e.pieces, d.head.id, d.content);
      (e.(pieces := pieces),
       match r
       case Err(error) => Err(error)
       case Ok(None) => Ok(None)
       case Ok(Some(whole)) => Whole(whole))
  }

  function OpenResponse(e: Endpoint, d: Datagram): (Endpoint, Result<Option<seq<RawPayload>>>) {
    if d.head.spiI != e.spiI || (e.spiR != 0 && d.head.spiR != e.spiR) then (e, Err(Malformed))
    else if e.keys.Some? && d.key.Some? then Open(e, e.keys.value, d)
    else if e.keys.None? && d.key.None? then (e, Whole(d.content))
    else (e, Err(Malformed))
  }

  function OpenRequest(e: Endpoint, d: Datagram): (Endpoint, Result<Option<PeerRequest>>) {
    if e.keys.None? || d.key.None? then (e, Err(Malformed))
    else
      var (e', r) := Open(e, e.keys.value, d);
      (e', match r
           case Err(error) => Err(error)
           case Ok(None) => Ok(None)
           case Ok(Some(payloads)) => Ok(Some(PeerRequest(d.head, payloads))))
  }

  // ---- executing a request ----------------------------------------------

  datatype Delete = Delete(protocol: byte, spis: seq<bytes>)

  /** `count` SPIs of `size` bytes. */
  function TakeSpis(data: bytes, size: nat, count: nat): Result<seq<bytes>> {
    if count == 0 then Ok([])
    else if |data| < size then Err(Malformed)
    else Prepend([data[..size]], TakeSpis(data[size..], size, count - 1))
  }

  function DecodeDelete(data: bytes): Result<Delete> {
    if |data| < 4 then Err(Malformed)
    else
      var spis :- TakeSpis(data[4..], data[1], FromBe16(data[2..4]));
      Ok(Delete(data[0], spis))
  }

  function EncodeSpis(spis: seq<u32>): bytes {
    if spis == [] then [] else EncodeSpis(spis[..|spis| - 1]) + Be32(spis[|spis| - 1])
  }

  /** A DELETE of CHILD SAs, by our inbound SPIs. */
  function EncodeDelete(spis: seq<u32>): RawPayload {
    RawPayload(DELETE, [3, 4] + Be16(if |spis| < 0x1_0000 then |spis| else 0) + EncodeSpis(spis))
  }

  function SpiValue(spi: bytes): u32 { if |spi| == 4 then FromBe32(spi) else 0 }

  /** The first CHILD SA that sends to `spi`, taken out. */
  function RemoveChild(children: seq<Child>, spi: u32): (seq<Child>, seq<u32>) {
    if children == [] then ([], [])
    else if children[0].spiOut == spi then (children[1..], [children[0].spiIn])
    else
      var (rest, ours) := RemoveChild(children[1..], spi);
      ([children[0]] + rest, ours)
  }

  function RemoveChildren(children: seq<Child>, spis: seq<bytes>): (seq<Child>, seq<u32>) {
    if spis == [] then (children, [])
    else
      var (before, ours) := RemoveChildren(children, spis[..|spis| - 1]);
      var (after, more) := RemoveChild(before, SpiValue(spis[|spis| - 1]));
      (after, ours + more)
  }

  /** What the DELETE payloads of an INFORMATIONAL request do: the CHILD SAs
      left, the answer, and whether the SA ended. */
  datatype Informed = Informed(children: seq<Child>, answer: seq<RawPayload>, ended: bool)

  function InformOne(i: Informed, isUp: bool, payload: RawPayload): Informed {
    if payload.kind != DELETE || DecodeDelete(payload.data).Err? then i
    else
      var delete := DecodeDelete(payload.data).value;
      if delete.protocol == 1 then i.(ended := true)
      else
        var (children, ours) := RemoveChildren(i.children, delete.spis);
        Informed(children, if ours == [] then i.answer else i.answer + [EncodeDelete(ours)],
                 i.ended || (children == [] && isUp))
  }

  function Inform(children: seq<Child>, isUp: bool, payloads: seq<RawPayload>): Informed {
    if payloads == [] then Informed(children, [], false)
    else InformOne(Inform(children, isUp, payloads[..|payloads| - 1]), isUp, payloads[|payloads| - 1])
  }

  /** What comes of a CREATE_CHILD_SA request: the algorithms, groups and
      nonces that lead to it are the caller's. */
  datatype Decision =
    | Refuse(notify: RawPayload)
    | Unintelligible
    | RekeyIke(answer: seq<RawPayload>, next: NextIke)
    | RekeyChild(answer: seq<RawPayload>, index: nat, child: Child)

  function NotifyOf(kind: u16): RawPayload {
    RawPayload(NOTIFY, [0, 0] + Be16(kind))
  }

  /** The state after one step, what it sent, and what it did. */
  datatype Outcome = Outcome(e: Endpoint, sent: seq<Datagram>, asked: Option<Message>,
                             executed: Option<PeerRequest>, answered: Option<Message>, reply: Option<Reply>)

  function Quiet(e: Endpoint): Outcome { Outcome(e, [], None, None, None, None) }

  /** Sends `m` in answer to `request`, if it can be encoded. */
  function Answer(e: Endpoint, request: PeerRequest, m: Message): Outcome {
    match Respond(e, m)
    case (e', Ok(datagrams)) => Outcome(e', datagrams, None, Some(request), Some(m), None)
    case (e', Err(_)) => Outcome(e', [], None, Some(request), None, None)
  }

  /** A rekeyed IKE SA takes over: the peer is its initiator. */
  function SwitchIke(e: Endpoint, next: NextIke): Endpoint {
    e.(initiator := false, spiI := next.spiI, spiR := next.spiR, keys := Some(next.keys),
       messageId := 0, peerMessageId := 0, lastResponse := None, pieces := EMPTY)
  }

  /** After a DELETE of the IKE SA: the next one, or the end. */
  function Conclude(e: Endpoint, ended: bool): Endpoint {
    if !ended then e
    else if e.nextIke.Some? then SwitchIke(e.(nextIke := None), e.nextIke.value)
    else e.(down := true)
  }

  function OnInformational(e: Endpoint, request: PeerRequest): Outcome {
    var i := Inform(e.children, e.isUp, request.payloads);
    var o := Answer(e.(children := i.children), request, NewResponse(e, Informational, request.head.id, i.answer));
    if o.answered.None? then o else o.(e := Conclude(o.e, i.ended))
  }

  function RefuseWith(e: Endpoint, request: PeerRequest, notify: RawPayload): Outcome {
    Answer(e, request, NewResponse(e, CreateChildSa, request.head.id, [notify]))
  }

  function Replace(children: seq<Child>, index: nat): seq<Child> {
    if index < |children| then children[index := children[index].(replaced := true)] else children
  }

  /** A request that makes no sense, or whose answer does not encode, is
      refused. */
  function OnCreateChildSa(e: Endpoint, request: PeerRequest, decision: Decision): Outcome {
    match decision
    case Refuse(notify) => RefuseWith(e, request, notify)
    case Unintelligible => RefuseWith(e, request, NotifyOf(INVALID_SYNTAX))
    case RekeyIke(answer, next) =>
      var o := Answer(e, request, NewResponse(e, CreateChildSa, request.head.id, answer));
      if o.answered.None? then RefuseWith(e, request, NotifyOf(INVALID_SYNTAX))
      else o.(e := o.e.(nextIke := Some(next)))
    case RekeyChild(answer, index, child) =>
      var o := Answer(e, request, NewResponse(e, CreateChildSa, request.head.id, answer));
      if o.answered.None? then RefuseWith(e, request, NotifyOf(INVALID_SYNTAX))
      else o.(e := o.e.(children := [child] + Replace(e.children, index)))
  }

  function Execute(e: Endpoint, request: PeerRequest, decision: Decision): Outcome {
    match request.head.exchange
    case Informational => OnInformational(e, request)
    case CreateChildSa => OnCreateChildSa(e, request, decision)
    case _ => Answer(e, request, NewResponse(e, request.head.exchange, request.head.id, [NotifyOf(INVALID_SYNTAX)]))
  }

  /** A request with the next id, opened: counted, then executed. */
  function Serve(unsealed: (Endpoint, Result<Option<PeerRequest>>), decision: Decision): Outcome {
    match unsealed.1
    case Ok(Some(request)) => Execute(unsealed.0.(peerMessageId := WrappingAdd(unsealed.0.peerMessageId)), request, decision)
    case _ => Quiet(unsealed.0)
  }

  /** A packet that is not the response waited for. */
  function HandlePacket(e: Endpoint, d: Datagram, decision: Decision): Outcome {
    if d.head.isResponse then Quiet(e)
    else if (d.head.spiI, d.head.spiR) != (e.spiI, e.spiR) then Quiet(e)
    else if d.head.id == WrappingSub(e.peerMessageId) then
      if e.lastResponse.None? || e.lastResponse.value.0 != d.head.id then Quiet(e)
      else
        var (e', r) := OpenRequest(e, d);
        if r.Ok? then Quiet(e').(sent := e.lastResponse.value.1) else Quiet(e')
    else if d.head.id != e.peerMessageId then Quiet(e)
    else Serve(OpenRequest(e, d), decision)
  }

  // ---- our requests ---------------------------------------------------------

  /** `request` up to its first wait. */
  function Ask(e: Endpoint, exchange: Exchange, payloads: seq<RawPayload>): Outcome {
    var m := NewRequest(e, exchange, payloads);
    match Encode(e, m)
    case Err(_) => Quiet(e)
    case Ok(datagrams) =>
      Outcome(e.(messageId := WrappingAdd(m.id), waiting := Some(Waiting(m.id, datagrams, 1))), datagrams, Some(m), None, None, None)
  }

  /** The wait ran out: the same datagrams again, or no more attempts. */
  function Resend(e: Endpoint): Outcome {
    if e.waiting.None? then Quiet(e)
    else if e.waiting.value.attempt == RETRANSMITS then Quiet(e.(waiting := None))
    else
      var w := e.waiting.value;
      Quiet(e.(waiting := Some(w.(attempt := w.attempt + 1)))).(sent := w.datagrams)
  }

  /** A request does not wait once the session is down. */
  function Settled(e: Endpoint): Endpoint {
    if e.down then e.(waiting := None) else e
  }

  /** A datagram, while a request waits or not. */
  function Arrive(e: Endpoint, d: Datagram, decision: Decision): Outcome {
    if e.waiting.Some? && d.head.isResponse && d.head.id == e.waiting.value.id then
      match OpenResponse(e, d)
      case (e', Ok(Some(payloads))) => Quiet(e'.(waiting := None)).(reply := Some(Reply(d.head, payloads)))
      case (e', _) => Quiet(Settled(e'))
    else
      var o := HandlePacket(e, d, decision);
      o.(e := Settled(o.e))
  }

  lemma SealedPiece(m: Message, key: Keys, maxLen: nat, k: nat)
    requires Sealed(m, key, Some(maxLen)).Ok? && Splits(key, |EncodeChain(m.payloads).value|, Some(maxLen))
    requires k < |Sealed(m, key, Some(maxLen)).value|
    ensures |Sealed(m, key, Some(maxLen)).value| == |CutOf(m, key, maxLen).chunks|
    ensures Sealed(m, key, Some(maxLen)).value[k] == PieceOf(m, key, CutOf(m, key, maxLen).first, CutOf(m, key, maxLen).chunks, k)
  {
  }
}
