/** What a PPP link answers and what it comes up with, exactly (RFC 1661
    sections 5.2 to 5.7). */
module PppAnswers {
  import opened Bytes
  import opened PppOptions
  import opened PppFsm
  import opened PppLink
  import opened PppRuns
  import opened PppBounds

  predicate Refuses(layer: Layer, options: seq<Opt>, randoms: nat -> u32, i: nat)
    requires i < |options|
  {
    layer.Review(options[i], randoms(i)).Rej?
  }

  predicate Agrees(layer: Layer, options: seq<Opt>, randoms: nat -> u32, i: nat)
    requires i < |options|
  {
    layer.Review(options[i], randoms(i)).Ack?
  }

  ghost predicate Increasing(at: seq<nat>) {
    forall i, j :: 0 <= i < j < |at| ==> at[i] < at[j]
  }

  /** `sub` holds the options of `options` at these places, in order. */
  ghost predicate Selects(sub: seq<Opt>, options: seq<Opt>, at: seq<nat>) {
    && |sub| == |at| && Increasing(at)
    && forall k :: 0 <= k < |at| ==> at[k] < |options| && sub[k] == options[at[k]]
  }

  /** Which options are agreed to, better values suggested for, and refused. */
  lemma ReviewIs(layer: Layer, o: Opt, random: u32)
    ensures layer.Review(o, random) ==
      if layer.Lcp? then
        if o.kind == 1 && |o.data| == 2 then Ack
        else if o.kind in {2, 5} && |o.data| == 4 then
          (if o.kind == 5 && FromBe32(o.data) == layer.magic then Nak(Opt(5, Be32(random))) else Ack)
        else Rej
      else if o.kind == 3 && |o.data| == 4 && FromBe32(o.data) != 0 then Ack
      else Rej
  {
  }

  /** The options of a Configure-Reject are the refused ones, all of them,
      unchanged and in order. */
  lemma {:induction false} RejectsSelect(layer: Layer, options: seq<Opt>, randoms: nat -> u32) returns (at: seq<nat>)
    ensures Selects(Rejects(layer, options, randoms), options, at)
    ensures forall i :: 0 <= i < |options| ==> (Refuses(layer, options, randoms, i) <==> i in at)
  {
    if options == [] {
      at := [];
    } else {
      var n := |options| - 1;
      at := RejectsSelect(layer, options[..n], randoms);
      assert forall i :: 0 <= i < n ==> (Refuses(layer, options[..n], randoms, i) <==> Refuses(layer, options, randoms, i));
      if Refuses(layer, options, randoms, n) {
        at := at + [n];
      }
    }
  }

  predicate Suggests(layer: Layer, options: seq<Opt>, randoms: nat -> u32, i: nat)
    requires i < |options|
  {
    layer.Review(options[i], randoms(i)).Nak?
  }

  lemma {:induction false} NaksSuggest(layer: Layer, options: seq<Opt>, randoms: nat -> u32)
    ensures Naks(layer, options, randoms) == [] ==> forall i :: 0 <= i < |options| ==> !Suggests(layer, options, randoms, i)
    ensures Naks(layer, options, randoms) != [] ==> exists i :: 0 <= i < |options| && Suggests(layer, options, randoms, i)
  {
    if options != [] {
      var n := |options| - 1;
      NaksSuggest(layer, options[..n], randoms);
      assert forall i :: 0 <= i < n ==> (Suggests(layer, options[..n], randoms, i) <==> Suggests(layer, options, randoms, i));
      assert Suggests(layer, options, randoms, n) <==> layer.Review(options[n], randoms(n)).Nak?;
    }
  }

  /** The code, the identifier and the data of a control packet. */
  predicate Reads(a: Action, layer: Layer, code: byte, id: byte, data: bytes) {
    a.Send? && |data| + 4 < 0x1_0000 && a.packet == Packet(layer, code, id, data)
  }

  ghost predicate AllAgreed(layer: Layer, options: seq<Opt>, randoms: nat -> u32) {
    forall i :: 0 <= i < |options| ==> Agrees(layer, options, randoms, i)
  }

  ghost predicate SomeRefused(layer: Layer, options: seq<Opt>, randoms: nat -> u32) {
    exists i :: 0 <= i < |options| && Refuses(layer, options, randoms, i)
  }

  /** A Configure-Reject with the refused options, all of them and no other,
      unchanged and in order. */
  ghost predicate RejectsExactly(a: Action, f: Fsm, id: byte, options: seq<Opt>, randoms: nat -> u32) {
    exists refused: seq<Opt>, at: seq<nat> ::
      && AllFit(refused) && Selects(refused, options, at)
      && Reads(a, f.layer, CONF_REJ, id, EncodeAll(refused)) && ParseAll(EncodeAll(refused)) == Some(refused)
      && forall i :: 0 <= i < |options| ==> (Refuses(f.layer, options, randoms, i) <==> i in at)
  }

  ghost predicate Naked(a: Action, f: Fsm, id: byte) {
    exists better: seq<Opt> ::
      && AllFit(better) && better != [] && Reads(a, f.layer, CONF_NAK, id, EncodeAll(better))
      && ParseAll(EncodeAll(better)) == Some(better)
  }

  lemma IsReject(f: Fsm, a: Action, id: byte, refused: seq<Opt>, options: seq<Opt>, randoms: nat -> u32)
    requires AllFit(refused) && refused == Rejects(f.layer, options, randoms) && ParseAll(EncodeAll(refused)) == Some(refused)
    requires Reads(a, f.layer, CONF_REJ, id, EncodeAll(refused))
    ensures RejectsExactly(a, f, id, options, randoms)
  {
    var at := RejectsSelect(f.layer, options, randoms);
    assert Selects(refused, options, at);
  }

  function CodeOf(a: Action): byte {
    if a.Send? && |a.packet| > 2 then a.packet[2] else 0
  }

  lemma CodeRead(a: Action, layer: Layer, code: byte, id: byte, data: bytes)
    requires Reads(a, layer, code, id, data)
    ensures CodeOf(a) == code
  {
    PacketReads(layer, code, id, data);
  }

  lemma RejectCodeRead(a: Action, f: Fsm, id: byte, options: seq<Opt>, randoms: nat -> u32)
    requires RejectsExactly(a, f, id, options, randoms)
    ensures CodeOf(a) == CONF_REJ
  {
    var refused: seq<Opt>, at: seq<nat> :| AllFit(refused) && Selects(refused, options, at)
      && Reads(a, f.layer, CONF_REJ, id, EncodeAll(refused));
    CodeRead(a, f.layer, CONF_REJ, id, EncodeAll(refused));
  }

  lemma NakCodeRead(a: Action, f: Fsm, id: byte)
    requires Naked(a, f, id)
    ensures CodeOf(a) == CONF_NAK
  {
    var better: seq<Opt> :| AllFit(better) && Reads(a, f.layer, CONF_NAK, id, EncodeAll(better));
    CodeRead(a, f.layer, CONF_NAK, id, EncodeAll(better));
  }

  lemma AnswerCode(layer: Layer, options: seq<Opt>, randoms: nat -> u32)
    ensures var (code, answer) := Answer(layer, options, randoms);
            && (code == CONF_ACK <==> AllAgreed(layer, options, randoms)) && (code == CONF_ACK ==> answer == options)
            && (code == CONF_REJ <==> SomeRefused(layer, options, randoms)) && (code == CONF_REJ ==> answer == Rejects(layer, options, randoms))
            && code in {CONF_ACK, CONF_NAK, CONF_REJ} && (code == CONF_NAK ==> answer != [])
  {
    var at := RejectsSelect(layer, options, randoms);
    NaksSuggest(layer, options, randoms);
    if at != [] {
      assert at[0] in at;
      assert Refuses(layer, options, randoms, at[0]) && !Agrees(layer, options, randoms, at[0]);
    } else {
      forall i | 0 <= i < |options|
        ensures !Refuses(layer, options, randoms, i)
        ensures Agrees(layer, options, randoms, i) <==> !Suggests(layer, options, randoms, i)
      {
        assert i !in at;
      }
    }
  }

  lemma AnswerMeans(f: Fsm, a: Action, code: byte, id: byte, answer: seq<Opt>, data: bytes, options: seq<Opt>, randoms: nat -> u32)
    requires AllFit(answer) && Reads(a, f.layer, code, id, EncodeAll(answer)) && ParseAll(EncodeAll(answer)) == Some(answer)
    requires (code, answer) == Answer(f.layer, options, randoms) && (answer == options ==> EncodeAll(answer) == data)
    requires |data| + 4 < 0x1_0000
    ensures AllAgreed(f.layer, options, randoms) <==> Reads(a, f.layer, CONF_ACK, id, data)
    ensures SomeRefused(f.layer, options, randoms) <==> RejectsExactly(a, f, id, options, randoms)
    ensures !AllAgreed(f.layer, options, randoms) && !SomeRefused(f.layer, options, randoms) <==> Naked(a, f, id)
  {
    AnswerCode(f.layer, options, randoms);
    CodeRead(a, f.layer, code, id, EncodeAll(answer));
    if Reads(a, f.layer, CONF_ACK, id, data) {
      CodeRead(a, f.layer, CONF_ACK, id, data);
    }
    if RejectsExactly(a, f, id, options, randoms) {
      RejectCodeRead(a, f, id, options, randoms);
    }
    if Naked(a, f, id) {
      NakCodeRead(a, f, id);
    }
    if code == CONF_REJ {
      IsReject(f, a, id, answer, options, randoms);
    }
  }

  lemma AnswerSent(f: Fsm, id: byte, data: bytes, randoms: nat -> u32) returns (r: (byte, seq<Opt>))
    requires f.state.Negotiating() && |data| + 4 < 0x1_0000 && ParseAll(data).Some?
    ensures var options, d := ParseAll(data).value, OnRequest(f, id, data, randoms);
            && r == Answer(f.layer, options, randoms) && AllFit(r.1)
            && |d.actions| == 1 && Reads(d.actions[0], f.layer, r.0, id, EncodeAll(r.1))
            && (d.fsm, d.outcome) == Answered(f, r.0 == CONF_ACK, options)
            && (r.1 == options ==> EncodeAll(r.1) == data)
            && ParseAll(EncodeAll(r.1)) == Some(r.1)
  {
    EncodesBack(data);
    AnswerFits(f.layer, data, randoms);
    r := Answer(f.layer, ParseAll(data).value, randoms);
    ParsesBack(r.1);
  }

  /** The answer to a Configure-Request while a layer negotiates. It is one
      packet with the request's identifier: an Ack with the request's very
      bytes if and only if all options are agreed to; a Reject if and only if
      some are refused, with just these; and a Nak otherwise. */
  lemma RequestAnswered(f: Fsm, id: byte, data: bytes, randoms: nat -> u32)
    requires f.state.Negotiating() && |data| + 4 < 0x1_0000 && ParseAll(data).Some?
    ensures var options, d := ParseAll(data).value, OnRequest(f, id, data, randoms);
            && |d.actions| == 1
            && (AllAgreed(f.layer, options, randoms) <==> Reads(d.actions[0], f.layer, CONF_ACK, id, data))
            && (AllAgreed(f.layer, options, randoms) <==> d.fsm.state.AckSent? || d.fsm.state.Opened?)
            && (SomeRefused(f.layer, options, randoms) <==> RejectsExactly(d.actions[0], f, id, options, randoms))
            && (!AllAgreed(f.layer, options, randoms) && !SomeRefused(f.layer, options, randoms) <==> Naked(d.actions[0], f, id))
  {
    var r := AnswerSent(f, id, data, randoms);
    AnswerMeans(f, OnRequest(f, id, data, randoms).actions[0], r.0, id, r.1, data, ParseAll(data).value, randoms);
    AnswerCode(f.layer, ParseAll(data).value, randoms);
  }

  // ---- rejects ----------------------------------------------------------------------

  /** One packet with this code: it holds the beginning of what it rejects, all
      of it unless that fills what the peer accepts, and fits what the peer
      accepts if and only if that is 6 bytes or more. */
  ghost predicate SendsReject(actions: seq<Action>, layer: Layer, code: byte, rejected: bytes) {
    && |actions| == 1 && actions[0].Send?
    && var packet := actions[0].packet;
       && |packet| >= 6 && packet[..2] == Be16(layer.Protocol()) && packet[2] == code
       && (|packet| <= layer.PeerMru() <==> layer.PeerMru() >= 6)
       && packet[6..] <= rejected
       && (packet[6..] == rejected || |packet| >= layer.PeerMru())
  }

  lemma RejectFits(f: Fsm, code: byte, id: byte, rejected: bytes)
    ensures SendsReject([Send(Packet(f.layer, code, id, Truncated(rejected, RejectLimit(f))))], f.layer, code, rejected)
  {
    PacketReads(f.layer, code, id, Truncated(rejected, RejectLimit(f)));
  }

  /** A packet of a code the automaton does not know gets a Code-Reject of it. */
  lemma CodeRejectFitsPeer(f: Fsm, code: byte, id: byte, data: bytes, now: int, randoms: nat -> u32)
    requires |data| + 4 < 0x1_0000 && !f.state.Closing? && (code == 0 || code > CODE_REJ)
    ensures SendsReject(Handle(f, code, id, data, now, randoms).actions, f.layer, CODE_REJ, [code, id] + Be16(|data| + 4) + data)
  {
    RejectFits(f, CODE_REJ, Next(f.id), [code, id] + Be16(|data| + 4) + data);
  }

  /** And one of a protocol the link does not know a Protocol-Reject, once LCP
      is open. */
  lemma ProtocolRejectFitsPeer(p: Link, packet: bytes, now: int, randoms: nat -> u32)
    requires Typed(p) && p.lcp.state.Opened? && |packet| >= 2
    requires FromBe16(packet[..2]) !in {IP_PROTOCOL, LCP_PROTOCOL, IPCP_PROTOCOL}
    ensures SendsReject(Input(p, packet, now, randoms).1, p.lcp.layer, PROTO_REJ, packet)
  {
    RejectFits(p.lcp, PROTO_REJ, Next(p.lcp.id), packet);
  }

  // ---- the addresses of an Up ---------------------------------------------------------

  /** What the peer asked last and we agreed to is in force. */
  predicate InForce(f: Fsm) {
    f.state.AckSent? || f.state.Opened? ==>
      if f.layer.Lcp? then f.layer.peerMru == MruOf(f.peerOptions) else f.layer.peer == AddressOf(f.peerOptions)
  }

  predicate SoundLayer(layer: Layer) {
    if layer.Lcp? then layer.mru <= DEFAULT_MRU else layer.peer != Some(UNSPECIFIED)
  }

  predicate SoundFsm(f: Fsm) { InForce(f) && SoundLayer(f.layer) }

  predicate SoundLink(p: Link) { Typed(p) && SoundFsm(p.lcp) && SoundFsm(p.ipcp) }

  lemma {:induction false} AcceptKeepsSound(layer: Layer, options: seq<Opt>, asReject: bool)
    requires SoundLayer(layer)
    ensures var l := Accept(layer, options, asReject);
            && SoundLayer(l) && l.Lcp? == layer.Lcp?
            && (l.Lcp? ==> l.peerMru == layer.peerMru) && (l.Ipcp? ==> l.peer == layer.peer)
  {
    if options != [] {
      AcceptKeepsSound(layer, options[..|options| - 1], asReject);
    }
  }

  lemma AgreedAddress(layer: Layer, options: seq<Opt>, randoms: nat -> u32)
    requires layer.Ipcp? && AllAgreed(layer, options, randoms)
    ensures AddressOf(options) != Some(UNSPECIFIED)
  {
    var found := Find(options, IPCP_ADDRESS);
    if found.Some? {
      var i :| 0 <= i < |options| && options[i] == found.value;
      assert Agrees(layer, options, randoms, i);
    }
  }

  lemma AgreedKeepsSound(layer: Layer, options: seq<Opt>, randoms: nat -> u32)
    requires SoundLayer(layer) && AllAgreed(layer, options, randoms)
    ensures SoundLayer(layer.PeerConfigured(options))
  {
    if layer.Ipcp? {
      AgreedAddress(layer, options, randoms);
    }
  }

  predicate KeepsPeer(f: Fsm, g: Fsm) {
    g.layer == f.layer && g.peerOptions == f.peerOptions && (g.state == f.state || g.state.ReqSent? || g.state.Closed?)
  }

  /** A request changes the peer's options only if it is acknowledged. */
  predicate Configures(f: Fsm, g: Fsm, options: seq<Opt>, randoms: nat -> u32) {
    Answer(f.layer, options, randoms).0 == CONF_ACK && g.layer == f.layer.PeerConfigured(options) && g.peerOptions == options
  }

  lemma RequestResult(f: Fsm, id: byte, data: bytes, randoms: nat -> u32)
    requires f.state.Negotiating() && |data| + 4 < 0x1_0000 && ParseAll(data).Some?
    ensures var g := OnRequest(f, id, data, randoms).fsm;
            KeepsPeer(f, g) || Configures(f, g, ParseAll(data).value, randoms)
  {
    var r := AnswerSent(f, id, data, randoms);
  }

  lemma OtherRequestResult(f: Fsm, id: byte, data: bytes, randoms: nat -> u32)
    requires |data| + 4 < 0x1_0000 && ((!f.state.Negotiating() && !f.state.Closing?) || ParseAll(data).None?)
    ensures KeepsPeer(f, OnRequest(f, id, data, randoms).fsm)
  {
    match ParseAll(data)
    case None =>
    case Some(options) =>
      if f.state.Opened? {
        assert OnRequest(f, id, data, randoms).fsm in {f, Ended(f, [], Restarted(f.layer.Lcp?)).fsm};
      } else {
        assert OnRequest(f, id, data, randoms) == Done(f, [], None);
      }
  }

  lemma RequestKeepsSound(f: Fsm, id: byte, data: bytes, randoms: nat -> u32)
    requires SoundFsm(f) && |data| + 4 < 0x1_0000 && !f.state.Closing?
    ensures SoundFsm(OnRequest(f, id, data, randoms).fsm)
  {
    if f.state.Negotiating() && ParseAll(data).Some? {
      RequestResult(f, id, data, randoms);
      if !KeepsPeer(f, OnRequest(f, id, data, randoms).fsm) {
        AnswerCode(f.layer, ParseAll(data).value, randoms);
        AgreedKeepsSound(f.layer, ParseAll(data).value, randoms);
      }
    } else {
      OtherRequestResult(f, id, data, randoms);
    }
  }

  lemma NakKeepsSound(f: Fsm, code: byte, id: byte, data: bytes, now: int)
    requires SoundFsm(f)
    ensures SoundFsm(OnNakOrRej(f, code, id, data, now).fsm)
  {
    if ParseAll(data).Some? {
      AcceptKeepsSound(f.layer, ParseAll(data).value, code == CONF_REJ || f.nakLoops + 1 > MAX_NAK_LOOPS);
    }
  }

  lemma OtherKeepsSound(f: Fsm, code: byte, id: byte, data: bytes, now: int, randoms: nat -> u32)
    requires SoundFsm(f) && |data| + 4 < 0x1_0000 && code !in {CONF_REQ, CONF_NAK, CONF_REJ}
    ensures SoundFsm(Handle(f, code, id, data, now, randoms).fsm)
  {
  }

  lemma HandleKeepsSound(f: Fsm, code: byte, id: byte, data: bytes, now: int, randoms: nat -> u32)
    requires SoundFsm(f) && |data| + 4 < 0x1_0000
    ensures SoundFsm(Handle(f, code, id, data, now, randoms).fsm)
  {
    if f.state.Closing? && code != TERM_ACK && code != TERM_REQ {
    } else if code == CONF_REQ {
      RequestKeepsSound(f, id, data, randoms);
    } else if code == CONF_NAK || code == CONF_REJ {
      NakKeepsSound(f, code, id, data, now);
    } else {
      OtherKeepsSound(f, code, id, data, now, randoms);
    }
  }

  lemma AfterLcpKeepsSound(p: Link, d: Done, now: int)
    requires SoundLink(p) && d.fsm.layer.Lcp? && SoundFsm(d.fsm)
    ensures SoundLink(AfterLcp(p, d, now).0)
  {
  }

  lemma AfterIpcpKeepsSound(p: Link, d: Done, now: int)
    requires SoundLink(p) && d.fsm.layer.Ipcp? && SoundFsm(d.fsm)
    ensures SoundLink(AfterIpcp(p, d, now).0)
  {
  }

  lemma ExpireKeepsSound(f: Fsm, now: int)
    requires SoundFsm(f)
    ensures SoundFsm(Expire(f, now).fsm) && Expire(f, now).fsm.layer == f.layer
  {
  }

  lemma ControlKeepsSound(p: Link, toLcp: bool, payload: bytes, now: int, randoms: nat -> u32)
    requires SoundLink(p)
    ensures SoundLink(Control(p, toLcp, payload, now, randoms).0)
  {
    match ParseControl(payload)
    case None =>
    case Some((code, id, data)) =>
      HandleKeepsLayer(p.lcp, code, id, data, now, randoms);
      HandleKeepsLayer(p.ipcp, code, id, data, now, randoms);
      if toLcp {
        HandleKeepsSound(p.lcp, code, id, data, now, randoms);
        AfterLcpKeepsSound(p, LcpHandle(p.lcp, code, id, data, now, randoms), now);
      } else {
        HandleKeepsSound(p.ipcp, code, id, data, now, randoms);
        AfterIpcpKeepsSound(p, Handle(p.ipcp, code, id, data, now, randoms), now);
      }
  }

  lemma TimeoutKeepsSound(p: Link, now: int)
    requires SoundLink(p)
    ensures SoundLink(Timeout(p, now).0)
  {
    ExpireKeepsSound(p.lcp, now);
    AfterLcpKeepsSound(p, Expire(p.lcp, now), now);
    var q := AfterLcp(p, Expire(p.lcp, now), now).0;
    ExpireKeepsSound(q.ipcp, now);
    AfterIpcpKeepsSound(q, Expire(q.ipcp, now), now);
  }

  lemma StepKeepsSound(p: Link, ev: Event)
    requires SoundLink(p)
    ensures SoundLink(Step(p, ev).0)
  {
    match ev
    case Opens(now) =>
    case Closes(now) =>
    case Expires(now) => TimeoutKeepsSound(p, now);
    case Receives(packet, now, randoms) =>
      if |packet| >= 2 {
        ControlKeepsSound(p, true, packet[2..], now, randoms);
        ControlKeepsSound(p, false, packet[2..], now, randoms);
      }
  }

  lemma {:induction false} RunKeepsSound(mru: u16, magic: u32, askDns: bool, events: seq<Event>)
    requires mru <= DEFAULT_MRU
    ensures SoundLink(Run(NewLink(mru, magic, askDns), events).link)
    decreases |events|
  {
    if events != [] {
      RunKeepsSound(mru, magic, askDns, events[..|events| - 1]);
      StepKeepsSound(Run(NewLink(mru, magic, askDns), events[..|events| - 1]).link, events[|events| - 1]);
    }
  }

  /** Addresses that can be used, of what was agreed to. */
  predicate Usable(p: Link, a: Addresses) {
    && a.local != UNSPECIFIED && a.peer != UNSPECIFIED && UNSPECIFIED !in a.dns
    && a.mtu <= MruOf(p.lcp.peerOptions) && a.mtu <= DEFAULT_MRU
    && (AddressOf(p.ipcp.peerOptions).Some? ==> a.peer == AddressOf(p.ipcp.peerOptions).value)
  }

  lemma AddressesUsable(p: Link)
    requires SoundLink(p) && p.lcp.state.Opened? && p.ipcp.state.Opened? && p.ipcp.layer.local != UNSPECIFIED
    ensures Usable(p, AddressesOf(p))
  {
  }

  lemma AfterIpcpUp(p: Link, d: Done, now: int, a: Action)
    requires Typed(p) && d.fsm.layer.Ipcp? && (forall x :: x in d.actions ==> x.Send?)
    requires a in AfterIpcp(p, d, now).1 && a.Up?
    ensures var q := AfterIpcp(p, d, now).0; a == Up(AddressesOf(q)) && q.ipcp.layer.local != UNSPECIFIED
  {
  }

  lemma StepUp(p: Link, ev: Event, a: Action)
    requires Stacked(p) && a in Step(p, ev).1 && a.Up?
    ensures var q := Step(p, ev).0; a == Up(AddressesOf(q)) && q.ipcp.layer.local != UNSPECIFIED
  {
    match ev
    case Opens(now) =>
    case Closes(now) =>
    case Expires(now) =>
      ExpireMoves(p.lcp, now);
      AfterLcpNoUp(p, Expire(p.lcp, now), now);
      var q := AfterLcp(p, Expire(p.lcp, now), now).0;
      ExpireMoves(q.ipcp, now);
      AfterIpcpUp(q, Expire(q.ipcp, now), now, a);
    case Receives(packet, now, randoms) =>
      match ParseControl(packet[2..])
      case None =>
      case Some((code, id, data)) =>
        if FromBe16(packet[..2]) == LCP_PROTOCOL {
          LcpHandleMoves(p.lcp, code, id, data, now, randoms);
          AfterLcpNoUp(p, LcpHandle(p.lcp, code, id, data, now, randoms), now);
        } else if FromBe16(packet[..2]) == IPCP_PROTOCOL {
          HandleMoves(p.ipcp, code, id, data, now, randoms);
          AfterIpcpUp(p, Handle(p.ipcp, code, id, data, now, randoms), now, a);
        }
  }

  /** Over every run: an Up carries addresses that are all specified, the
      peer's being the one agreed to, and a size that neither the peer's
      request nor 1500 bytes exceed. */
  lemma UpIsUsable(mru: u16, magic: u32, askDns: bool, events: seq<Event>, ev: Event, a: Action)
    requires mru <= DEFAULT_MRU && OpensIn(events + [ev]) <= 1
    requires var t := Run(NewLink(mru, magic, askDns), events); a in Step(t.link, ev).1 && a.Up?
    ensures var t := Run(NewLink(mru, magic, askDns), events); Usable(Step(t.link, ev).0, a.addresses)
  {
    var t := Run(NewLink(mru, magic, askDns), events);
    assert (events + [ev])[..|events|] == events;
    RunHolds(mru, magic, askDns, events);
    RunKeepsSound(mru, magic, askDns, events);
    StepKeepsSound(t.link, ev);
    StepUp(t.link, ev, a);
    UpNeedsLcp(mru, magic, askDns, events, ev, a);
    AddressesUsable(Step(t.link, ev).0);
  }
}
