/** The PPP link as its objects keep it, step by step. */
module PppClass {
  import opened Bytes
  import opened PppOptions
  import opened PppFsm
  import opened PppLink

  class Automaton {
    var layer: Layer
    var state: State
    var id: byte
    var retransmits: nat
    var nakLoops: nat
    var timer: Option<int>
    var peerOptions: seq<Opt>

    function View(): Fsm
      reads this
    {
      Fsm(layer, state, id, retransmits, nakLoops, timer, peerOptions)
    }

    constructor (layer: Layer)
      ensures View() == NewFsm(layer)
    {
      this.layer := layer;
      state, id, retransmits, nakLoops, timer, peerOptions := Initial, 0, 0, 0, None, [];
    }

    method SendConfigureRequest(now: int) returns (actions: seq<Action>)
      modifies this
      ensures Done(View(), actions, None) == SendRequest(old(View()), now)
    {
      var options := EncodeOptions(layer.Request());
      RequestFits(layer);
      actions := [Send(Packet(layer, CONF_REQ, id, options))];
      timer := Some(now + RESTART_TIMER);
    }

    method Open(now: int) returns (actions: seq<Action>)
      modifies this
      ensures Done(View(), actions, None) == Start(old(View()), now)
    {
      state := ReqSent;
      retransmits := layer.MaxConfigure();
      nakLoops := 0;
      id := Next(id);
      actions := SendConfigureRequest(now);
    }

    method SendTerminateRequest(now: int) returns (actions: seq<Action>)
      modifies this
      ensures Done(View(), actions, None) == SendTerminate(old(View()), now)
    {
      id := Next(id);
      actions := [Send(Packet(layer, TERM_REQ, id, []))];
      timer := Some(now + RESTART_TIMER);
    }

    method Close(now: int) returns (actions: seq<Action>, awaited: bool)
      modifies this
      ensures (Done(View(), actions, None), awaited) == Finish(old(View()), now)
    {
      match state
      case Initial => return [], false;
      case Closed => return [], false;
      case Closing => return [], true;
      case _ =>
        state := Closing;
        retransmits := MAX_TERMINATE;
        actions := SendTerminateRequest(now);
        awaited := true;
    }

    method End(reason: Reason) returns (outcome: Option<Outcome>)
      modifies this
      ensures forall actions :: Done(View(), actions, outcome) == Ended(old(View()), actions, reason)
    {
      state := Closed;
      timer := None;
      outcome := Some(LayerDown(reason));
    }

    method OnTimeout(now: int) returns (actions: seq<Action>, outcome: Option<Outcome>)
      modifies this
      ensures Done(View(), actions, outcome) == Expire(old(View()), now)
    {
      actions, outcome := [], None;
      if timer.None? || timer.value > now {
        return;
      }
      if retransmits == 0 {
        outcome := End(if state.Closing? then NoTerminateAck(layer.Lcp?) else NoAnswer(layer.Lcp?));
        return;
      }
      retransmits := retransmits - 1;
      if state.Closing? {
        actions := SendTerminateRequest(now);
      } else if state.Negotiating() {
        actions := SendConfigureRequest(now);
        if state.AckRcvd? {
          state := ReqSent;
        }
      } else {
        timer := None;
      }
    }

    method Receive(code: byte, id: byte, data: bytes, now: int, randoms: nat -> u32)
      returns (actions: seq<Action>, outcome: Option<Outcome>)
      requires |data| + 4 < 0x1_0000
      modifies this
      ensures Done(View(), actions, outcome) == Handle(old(View()), code, id, data, now, randoms)
    {
      actions, outcome := [], None;
      if state.Closing? && code != TERM_ACK && code != TERM_REQ {
        return;
      }
      if code == CONF_REQ {
        actions, outcome := ReceiveRequest(id, data, randoms);
      } else if code == CONF_ACK {
        outcome := ReceiveAck(id);
      } else if code == CONF_NAK || code == CONF_REJ {
        actions, outcome := ReceiveNakOrRej(code, id, data, now);
      } else if code == TERM_REQ {
        actions := [Send(Packet(layer, TERM_ACK, id, []))];
        outcome := End(Terminated(layer.Lcp?));
      } else if code == TERM_ACK {
        if state.Closing? {
          outcome := End(LayerClosed(layer.Lcp?));
        } else if state.Opened? {
          outcome := End(UnexpectedTerminateAck(layer.Lcp?));
        }
      } else if code == CODE_REJ {
        outcome := ReceiveCodeReject(data);
      } else {
        var rejected := [code, id] + Be16(|data| + 4) + data;
        rejected := Truncated(rejected, RejectLimit(View()));
        this.id := Next(this.id);
        actions := [Send(Packet(layer, CODE_REJ, this.id, rejected))];
      }
    }

    method ReceiveCodeReject(data: bytes) returns (outcome: Option<Outcome>)
      modifies this
      ensures Done(View(), [], outcome) == OnCodeReject(old(View()), data)
    {
      var rejected := if data == [] then 0 else data[0];
      if CONF_REQ <= rejected <= CODE_REJ {
        outcome := End(CodeRejected(layer.Lcp?, rejected));
        return;
      }
      if state.AckRcvd? {
        state := ReqSent;
      }
      outcome := None;
    }

    /** The refused options, and better values for others. */
    method ReviewAll(options: seq<Opt>, randoms: nat -> u32) returns (naks: seq<Opt>, rejs: seq<Opt>)
      ensures naks == Naks(layer, options, randoms) && rejs == Rejects(layer, options, randoms)
    {
      naks, rejs := [], [];
      var i := 0;
      while i < |options|
        invariant 0 <= i <= |options|
        invariant naks == Naks(layer, options[..i], randoms) && rejs == Rejects(layer, options[..i], randoms)
      {
        assert options[..i + 1][..i] == options[..i];
        match layer.Review(options[i], randoms(i)) {
          case Ack =>
          case Nak(better) => naks := naks + [better];
          case Rej => rejs := rejs + [options[i]];
        }
        i := i + 1;
      }
      assert options[..i] == options;
    }

    method ReceiveRequest(id: byte, data: bytes, randoms: nat -> u32) returns (actions: seq<Action>, outcome: Option<Outcome>)
      requires |data| + 4 < 0x1_0000
      modifies this
      ensures Done(View(), actions, outcome) == OnRequest(old(View()), id, data, randoms)
    {
      actions, outcome := [], None;
      var parsed := ParseOptions(data);
      if parsed.None? {
        return;
      }
      var options := parsed.value;
      if state.Opened? {
        if options == peerOptions {
          actions := [Send(Packet(layer, CONF_ACK, id, data))];
          return;
        }
        outcome := End(Restarted(layer.Lcp?));
        return;
      }
      if state.Initial? || state.Closed? {
        return;
      }
      var naks, rejs := ReviewAll(options, randoms);
      var code, answer := CONF_ACK, options;
      if rejs != [] {
        code, answer := CONF_REJ, rejs;
      } else if naks != [] {
        code, answer := CONF_NAK, naks;
      }
      AnswerFits(layer, data, randoms);
      var encoded := EncodeOptions(answer);
      actions := [Send(Packet(layer, code, id, encoded))];
      if code == CONF_ACK {
        layer := layer.PeerConfigured(options);
        peerOptions := options;
        if state.AckRcvd? {
          state := Opened;
          timer := None;
          outcome := Some(LayerUp);
          return;
        }
        state := AckSent;
      } else if state.AckSent? {
        state := ReqSent;
      }
    }

    method ReceiveAck(id: byte) returns (outcome: Option<Outcome>)
      modifies this
      ensures Done(View(), [], outcome) == OnAck(old(View()), id)
    {
      outcome := None;
      if id != this.id {
        return;
      }
      if state.ReqSent? {
        state := AckRcvd;
      } else if state.AckSent? {
        state := Opened;
        timer := None;
        outcome := Some(LayerUp);
      }
    }

    method AcceptAll(options: seq<Opt>, asReject: bool)
      modifies this`layer
      ensures layer == Accept(old(layer), options, asReject)
    {
      var i := 0;
      while i < |options|
        invariant 0 <= i <= |options|
        invariant layer == Accept(old(layer), options[..i], asReject)
      {
        assert options[..i + 1][..i] == options[..i];
        layer := if asReject then layer.AcceptRej(options[i]) else layer.AcceptNak(options[i]);
        i := i + 1;
      }
      assert options[..i] == options;
    }

    method ReceiveNakOrRej(code: byte, id: byte, data: bytes, now: int) returns (actions: seq<Action>, outcome: Option<Outcome>)
      modifies this
      ensures Done(View(), actions, outcome) == OnNakOrRej(old(View()), code, id, data, now)
    {
      actions, outcome := [], None;
      if id != this.id {
        return;
      }
      var parsed := ParseOptions(data);
      if parsed.None? {
        return;
      }
      if state.Opened? {
        return;
      }
      nakLoops := nakLoops + 1;
      if nakLoops > 2 * MAX_NAK_LOOPS {
        outcome := End(KeepsRefusing(layer.Lcp?));
        return;
      }
      AcceptAll(parsed.value, code == CONF_REJ || nakLoops > MAX_NAK_LOOPS);
      if state.AckRcvd? {
        state := ReqSent;
      }
      this.id := Next(this.id);
      actions := SendConfigureRequest(now);
    }
  }

  class Ppp {
    const lcp: Automaton
    const ipcp: Automaton
    var down: bool

    function View(): Link
      reads this, lcp, ipcp
    {
      Link(lcp.View(), ipcp.View(), down)
    }

    predicate Valid()
      reads this, lcp, ipcp
    {
      lcp != ipcp && lcp.layer.Lcp? && ipcp.layer.Ipcp?
    }

    constructor (mru: u16, magic: u32, askDns: bool)
      ensures Valid() && fresh(lcp) && fresh(ipcp) && View() == NewLink(mru, magic, askDns)
    {
      lcp := new Automaton(Lcp(mru, magic, true, true, DEFAULT_MRU));
      ipcp := new Automaton(Ipcp(UNSPECIFIED, None, None, None, true, askDns, askDns, DEFAULT_MRU));
      down := false;
    }

    method Report(reason: Reason) returns (actions: seq<Action>)
      requires Valid()
      modifies this
      ensures Valid() && (View(), actions) == ReportDown(old(View()), reason)
    {
      actions := [];
      if !down {
        down := true;
        actions := [Down(reason)];
      }
    }

    method Open(now: int) returns (actions: seq<Action>)
      requires Valid()
      modifies lcp
      ensures Valid() && (View(), actions) == OpenLink(old(View()), now)
    {
      actions := lcp.Open(now);
    }

    method Close(now: int) returns (actions: seq<Action>)
      requires Valid()
      modifies this, lcp, ipcp
      ensures Valid() && (View(), actions) == CloseLink(old(View()), now)
    {
      ipcp.state := Closed;
      ipcp.timer := None;
      var awaited: bool;
      actions, awaited := lcp.Close(now);
      if !awaited {
        var more := Report(LinkClosed);
        actions := actions + more;
      }
    }

    method HandleLcp(outcome: Outcome, now: int) returns (actions: seq<Action>)
      requires Valid()
      modifies this, ipcp
      ensures Valid() && (View(), actions) == OnLcp(old(View()), outcome, now)
    {
      match outcome
      case LayerUp =>
        ipcp.layer := ipcp.layer.(linkMru := lcp.layer.PeerMru());
        actions := ipcp.Open(now);
      case LayerDown(reason) =>
        actions := Report(reason);
    }

    method HandleIpcp(outcome: Outcome, now: int) returns (actions: seq<Action>)
      requires Valid()
      modifies this, lcp, ipcp
      ensures Valid() && (View(), actions) == OnIpcp(old(View()), outcome, now)
    {
      match outcome
      case LayerUp =>
        if ipcp.layer.local == UNSPECIFIED {
          ipcp.state := Closed;
          var awaited: bool;
          actions, awaited := lcp.Close(now);
          var more := Report(NoAddress);
          actions := actions + more;
          return;
        }
        actions := [Up(AddressesOf(View()))];
      case LayerDown(reason) =>
        actions := [];
        if lcp.state.Opened? {
          var awaited: bool;
          actions, awaited := lcp.Close(now);
        }
        var more := Report(reason);
        actions := actions + more;
    }

    method OnTimeout(now: int) returns (actions: seq<Action>)
      requires Valid()
      modifies this, lcp, ipcp
      ensures Valid() && (View(), actions) == Timeout(old(View()), now)
    {
      var outcome: Option<Outcome>;
      actions, outcome := lcp.OnTimeout(now);
      if outcome.Some? {
        var more := HandleLcp(outcome.value, now);
        actions := actions + more;
      }
      ghost var after := AfterLcp(old(View()), Expire(old(View()).lcp, now), now);
      assert (View(), actions) == after;
      var sent, next := ipcp.OnTimeout(now);
      if next.Some? {
        var more := HandleIpcp(next.value, now);
        sent := sent + more;
      }
      assert (View(), sent) == AfterIpcp(after.0, Expire(after.0.ipcp, now), now);
      actions := actions + sent;
    }

    method Feed(packet: bytes, now: int, randoms: nat -> u32) returns (actions: seq<Action>)
      requires Valid()
      modifies this, lcp, ipcp
      ensures Valid() && (View(), actions) == Input(old(View()), packet, now, randoms)
    {
      actions := [];
      if |packet| < 2 {
        return;
      }
      var protocol, payload := FromBe16(packet[..2]), packet[2..];
      if protocol == IP_PROTOCOL {
        if ipcp.state.Opened? {
          actions := [Deliver(payload)];
        }
      } else if protocol == LCP_PROTOCOL {
        actions := FeedControl(true, payload, now, randoms);
      } else if protocol == IPCP_PROTOCOL {
        if lcp.state.Opened? {
          actions := FeedControl(false, payload, now, randoms);
        }
      } else if lcp.state.Opened? {
        lcp.id := Next(lcp.id);
        actions := [Send(Packet(lcp.layer, PROTO_REJ, lcp.id, Truncated(packet, RejectLimit(lcp.View()))))];
      }
    }

    method FeedControl(toLcp: bool, payload: bytes, now: int, randoms: nat -> u32) returns (actions: seq<Action>)
      requires Valid()
      modifies this, lcp, ipcp
      ensures Valid() && (View(), actions) == Control(old(View()), toLcp, payload, now, randoms)
    {
      actions := [];
      var header := ParseControl(payload);
      if header.None? {
        return;
      }
      var (code, id, data) := header.value;
      HandleKeepsLayer(lcp.View(), code, id, data, now, randoms);
      HandleKeepsLayer(ipcp.View(), code, id, data, now, randoms);
      var outcome: Option<Outcome>;
      var more := [];
      if toLcp {
        actions, outcome := FeedLcp(code, id, data, now, randoms);
        if outcome.Some? {
          more := HandleLcp(outcome.value, now);
        }
      } else {
        actions, outcome := ipcp.Receive(code, id, data, now, randoms);
        if outcome.Some? {
          more := HandleIpcp(outcome.value, now);
        }
      }
      assert actions + [] == actions;
      actions := actions + more;
    }

    method FeedLcp(code: byte, id: byte, data: bytes, now: int, randoms: nat -> u32)
      returns (actions: seq<Action>, outcome: Option<Outcome>)
      requires Valid() && |data| + 4 < 0x1_0000
      modifies lcp
      ensures Done(lcp.View(), actions, outcome) == LcpHandle(old(lcp.View()), code, id, data, now, randoms)
    {
      actions, outcome := [], None;
      if code == ECHO_REQ {
        if lcp.state.Opened? {
          var reply := Be32(lcp.layer.magic);
          reply := reply + Dropped(data, 4);
          actions := [Send(Packet(lcp.layer, ECHO_REPLY, id, reply))];
        }
      } else if code in {ECHO_REPLY, DISCARD_REQ, IDENTIFICATION, TIME_REMAINING} {
      } else if code == PROTO_REJ {
        if |data| >= 2 && FromBe16(data[..2]) == IPCP_PROTOCOL {
          outcome := Some(LayerDown(IpcpRejected));
        }
      } else {
        actions, outcome := lcp.Receive(code, id, data, now, randoms);
      }
    }
  }
}
