/** The session as the program keeps it: fields that every handler updates. A
    request that waits for its response is the field `waiting`. */
module SessionClass {
  import opened Bytes
  import opened Crypto
  import opened Payloads
  import opened Messages
  import opened Reassembly
  import opened Session

  class IkeSession {
    var initiator: bool
    var spiI: u64
    var spiR: u64
    var keys: Option<IkeKeys>
    var messageId: u32
    var peerMessageId: u32
    var lastResponse: Option<(u32, seq<Datagram>)>
    const peerFragments: bool
    var reassembler: Reassembler
    var children: seq<Child>
    const isUp: bool
    var down: bool
    var nextIke: Option<NextIke>
    var waiting: Option<Waiting>

    function View(): Endpoint
      reads this, reassembler
    {
      Endpoint(initiator, spiI, spiR, keys, messageId, peerMessageId, lastResponse, peerFragments,
               reassembler.View(), children, isUp, down, nextIke, waiting)
    }

    constructor (spiI: u64, spiR: u64, keys: IkeKeys, messageId: u32, peerMessageId: u32, peerFragments: bool, children: seq<Child>, isUp: bool)
      ensures View() == Endpoint(true, spiI, spiR, Some(keys), messageId, peerMessageId, None, peerFragments,
                                 EMPTY, children, isUp, false, None, None)
      ensures fresh(reassembler)
    {
      this.initiator, this.spiI, this.spiR, this.keys := true, spiI, spiR, Some(keys);
      this.messageId, this.peerMessageId, this.lastResponse := messageId, peerMessageId, None;
      this.peerFragments, this.children, this.isUp := peerFragments, children, isUp;
      this.down, this.nextIke, this.waiting := false, None, None;
      reassembler := new Reassembler();
    }

    method OpenPacket(current: IkeKeys, d: Datagram) returns (r: Result<Option<seq<RawPayload>>>)
      modifies reassembler
      ensures (View(), r) == Open(old(View()), current, d)
    {
      if d.key != Some(current.inbound) {
        return Err(Crypto);
      }
      if d.content.fragment.None? {
        return Whole(d.content);
      }
      var added := reassembler.AddFragment(d.head.id, d.content);
      match added {
        case Err(error) => return Err(error);
        case Ok(None) => return Ok(None);
        case Ok(Some(whole)) => return Whole(whole);
      }
    }

    method OpenResponsePacket(d: Datagram) returns (r: Result<Option<seq<RawPayload>>>)
      modifies reassembler
      ensures (View(), r) == OpenResponse(old(View()), d)
    {
      if d.head.spiI != spiI || (spiR != 0 && d.head.spiR != spiR) {
        return Err(Malformed);
      }
      if keys.None? || d.key.None? {
        if keys.None? && d.key.None? {
          return Whole(d.content);
        }
        return Err(Malformed);
      }
      r := OpenPacket(keys.value, d);
    }

    method OpenRequestPacket(d: Datagram) returns (r: Result<Option<PeerRequest>>)
      modifies reassembler
      ensures (View(), r) == OpenRequest(old(View()), d)
    {
      if keys.None? {
        return Err(Malformed);
      }
      if d.key.None? {
        return Err(Malformed);
      }
      var inner := OpenPacket(keys.value, d);
      match inner {
        case Err(error) => return Err(error);
        case Ok(None) => return Ok(None);
        case Ok(Some(payloads)) => return Ok(Some(PeerRequest(d.head, payloads)));
      }
    }

    method SendResponse(m: Message) returns (r: Result<seq<Datagram>>)
      modifies this`lastResponse
      ensures (View(), r) == Respond(old(View()), m)
    {
      r := Encode(View(), m);
      if r.Ok? {
        lastResponse := Some((m.id, r.value));
      }
    }

    method AnswerWith(request: PeerRequest, m: Message) returns (sent: seq<Datagram>, answered: Option<Message>)
      modifies this`lastResponse
      ensures Outcome(View(), sent, None, Some(request), answered, None) == Answer(old(View()), request, m)
    {
      var r := SendResponse(m);
      sent, answered := if r.Ok? then r.value else [], if r.Ok? then Some(m) else None;
    }

    method Switch(next: NextIke)
      modifies this
      ensures View() == SwitchIke(old(View()), next) && fresh(reassembler)
    {
      initiator, spiI, spiR, keys := false, next.spiI, next.spiR, Some(next.keys);
      messageId, peerMessageId, lastResponse := 0, 0, None;
      reassembler := new Reassembler();
    }

    /** The loop over the payloads of an INFORMATIONAL request. */
    method HandlePayloads(payloads: seq<RawPayload>) returns (answer: seq<RawPayload>, ended: bool)
      modifies this`children
      ensures Inform(old(children), isUp, payloads) == Informed(children, answer, ended)
    {
      answer, ended := [], false;
      var index := 0;
      assert payloads[..0] == [];
      while index < |payloads|
        invariant 0 <= index <= |payloads|
        invariant Inform(old(children), isUp, payloads[..index]) == Informed(children, answer, ended)
      {
        var payload := payloads[index];
        assert payloads[..index + 1][..index] == payloads[..index];
        index := index + 1;
        if payload.kind != DELETE {
          continue;
        }
        var delete := DecodeDelete(payload.data);
        if delete.Err? {
          continue;
        }
        if delete.value.protocol == 1 {
          ended := true;
        } else {
          var (left, ours) := RemoveChildren(children, delete.value.spis);
          children := left;
          if ours != [] {
            answer := answer + [EncodeDelete(ours)];
          }
          if children == [] && isUp {
            ended := true;
          }
        }
      }
      assert payloads[..index] == payloads;
    }

    method HandleInformational(request: PeerRequest) returns (sent: seq<Datagram>, answered: Option<Message>)
      modifies this
      ensures Outcome(View(), sent, None, Some(request), answered, None) == OnInformational(old(View()), request)
      ensures reassembler == old(reassembler) || fresh(reassembler)
    {
      var answer, ended := HandlePayloads(request.payloads);
      sent, answered := AnswerWith(request, NewResponse(View(), Informational, request.head.id, answer));
      if answered.None? {
        return;
      }
      if ended {
        if nextIke.Some? {
          var next := nextIke.value;
          nextIke := None;
          Switch(next);
        } else {
          down := true;
        }
      }
    }

    method HandleCreateChildSa(request: PeerRequest, decision: Decision) returns (sent: seq<Datagram>, answered: Option<Message>)
      modifies this
      ensures Outcome(View(), sent, None, Some(request), answered, None) == OnCreateChildSa(old(View()), request, decision)
      ensures reassembler == old(reassembler)
    {
      var id := request.head.id;
      match decision {
        case Refuse(notify) =>
          sent, answered := AnswerWith(request, NewResponse(View(), CreateChildSa, id, [notify]));
        case Unintelligible =>
          sent, answered := AnswerWith(request, NewResponse(View(), CreateChildSa, id, [NotifyOf(INVALID_SYNTAX)]));
        case RekeyIke(answer, next) =>
          sent, answered := AnswerWith(request, NewResponse(View(), CreateChildSa, id, answer));
          if answered.None? {
            sent, answered := AnswerWith(request, NewResponse(View(), CreateChildSa, id, [NotifyOf(INVALID_SYNTAX)]));
          } else {
            nextIke := Some(next);
          }
        case RekeyChild(answer, index, child) =>
          sent, answered := AnswerWith(request, NewResponse(View(), CreateChildSa, id, answer));
          if answered.None? {
            sent, answered := AnswerWith(request, NewResponse(View(), CreateChildSa, id, [NotifyOf(INVALID_SYNTAX)]));
          } else {
            children := Replace(children, index);
            children := [child] + children;
          }
      }
    }

    method Handle(d: Datagram, decision: Decision) returns (o: Outcome)
      modifies this, reassembler
      ensures o == HandlePacket(old(View()), d, decision) && View() == o.e
      ensures reassembler == old(reassembler) || fresh(reassembler)
    {
      if d.head.isResponse {
        return Quiet(View());
      }
      if (d.head.spiI, d.head.spiR) != (spiI, spiR) {
        return Quiet(View());
      }
      var id := d.head.id;
      if id == WrappingSub(peerMessageId) {
        if lastResponse.None? || lastResponse.value.0 != id {
          return Quiet(View());
        }
        var again := OpenRequestPacket(d);
        return if again.Ok? then Quiet(View()).(sent := lastResponse.value.1) else Quiet(View());
      }
      if id != peerMessageId {
        return Quiet(View());
      }
      var inner := OpenRequestPacket(d);
      if inner.Err? || inner.value.None? {
        return Quiet(View());
      }
      var request := inner.value.value;
      peerMessageId := WrappingAdd(peerMessageId);
      var sent, answered;
      match request.head.exchange {
        case Informational =>
          sent, answered := HandleInformational(request);
        case CreateChildSa =>
          sent, answered := HandleCreateChildSa(request, decision);
        case _ =>
          sent, answered := AnswerWith(request, NewResponse(View(), request.head.exchange, id, [NotifyOf(INVALID_SYNTAX)]));
      }
      return Outcome(View(), sent, None, Some(request), answered, None);
    }

    method BeginRequest(exchange: Exchange, payloads: seq<RawPayload>) returns (o: Outcome)
      modifies this
      ensures o == Ask(old(View()), exchange, payloads) && View() == o.e && reassembler == old(reassembler)
    {
      var m := NewRequest(View(), exchange, payloads);
      var datagrams := Encode(View(), m);
      if datagrams.Err? {
        return Quiet(View());
      }
      messageId := WrappingAdd(m.id);
      waiting := Some(Waiting(m.id, datagrams.value, 1));
      return Outcome(View(), datagrams.value, Some(m), None, None, None);
    }

    method OnDatagram(d: Datagram, decision: Decision) returns (o: Outcome)
      modifies this, reassembler
      ensures o == Arrive(old(View()), d, decision) && View() == o.e
    {
      if waiting.Some? && d.head.isResponse && d.head.id == waiting.value.id {
        var inner := OpenResponsePacket(d);
        if inner.Ok? && inner.value.Some? {
          waiting := None;
          return Quiet(View()).(reply := Some(Reply(d.head, inner.value.value)));
        }
        o := Quiet(View());
      } else {
        o := Handle(d, decision);
      }
      if down {
        waiting := None;
      }
      o := o.(e := View());
    }

    method OnDeadline() returns (o: Outcome)
      modifies this
      ensures o == Resend(old(View())) && View() == o.e && reassembler == old(reassembler)
    {
      if waiting.None? {
        return Quiet(View());
      }
      if waiting.value.attempt == RETRANSMITS {
        waiting := None;
        return Quiet(View());
      }
      waiting := Some(waiting.value.(attempt := waiting.value.attempt + 1));
      return Quiet(View()).(sent := waiting.value.datagrams);
    }
  }
}
