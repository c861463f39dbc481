/** What a PPP link comes up with, read off the packets of both sides: our
    last Configure-Request, what Naks and Rejects of the peer made of it, and
    the peer's request we acknowledged (RFC 1661 section 5, RFC 1332 section 3). */
module PppTerms {
  import opened Bytes
  import opened PppOptions
  import opened PppFsm
  import opened PppLink
  import opened PppRuns
  import opened PppBounds
  import opened PppAnswers

  // ---- what the packets say about one layer ------------------------------------------

  datatype Wishes = Wishes(named: map<byte, u32>, refused: set<byte>)

  /** The values the peer's Naks gave last, option by option; the options it
      refused; the payload of our last Configure-Request; whether it was
      acknowledged since; and the options of the peer's request we
      acknowledged last. */
  datatype Terms = Terms(wishes: Wishes, request: Option<bytes>, acked: bool, agreed: Option<seq<Opt>>)

  const NO_TERMS := Terms(Wishes(map[], {}), None, false, None)

  /** The value an option of a Nak gives. */
  function Value(isLcp: bool, o: Opt): Option<u32> {
    if isLcp then
      if o.kind == LCP_MRU && |o.data| == 2 && FromBe16(o.data) <= 1500 then Some(FromBe16(o.data))
      else if o.kind == LCP_MAGIC && |o.data| == 4 then Some(FromBe32(o.data))
      else None
    else
      if o.kind in {IPCP_ADDRESS, IPCP_DNS1, IPCP_DNS2} && |o.data| == 4 && FromBe32(o.data) != 0 then Some(FromBe32(o.data))
      else None
  }

  /** Later options take the place of earlier ones. */
  function NamedBy(isLcp: bool, options: seq<Opt>, named: map<byte, u32>): map<byte, u32> {
    if options == [] then named
    else
      var n := |options| - 1;
      var before := NamedBy(isLcp, options[..n], named);
      var v := Value(isLcp, options[n]);
      if v.Some? then before[options[n].kind := v.value] else before
  }

  function Kinds(options: seq<Opt>): set<byte> { set o | o in options :: o.kind }

  /** The options of a Nak or Reject that is taken over: of our request, while
      we negotiate or are not open, at most 10 times. */
  function TakenOver(f: Fsm, code: byte, id: byte, data: bytes): Option<seq<Opt>> {
    if code in {CONF_NAK, CONF_REJ} && id == f.id && !f.state.Opened? && !f.state.Closing? && f.nakLoops < 10 then ParseAll(data) else None
  }

  /** The first 5 times a Nak names values; a Reject refuses options, and so
      does a Nak after that. */
  function Told(f: Fsm, code: byte, id: byte, data: bytes, t: Terms): Terms {
    match TakenOver(f, code, id, data)
    case None => t.(acked := t.acked || (code == CONF_ACK && id == f.id && !f.state.Closing?))
    case Some(options) =>
      if code == CONF_NAK && f.nakLoops < 5 then t.(wishes := t.wishes.(named := NamedBy(f.layer.Lcp?, options, t.wishes.named)))
      else t.(wishes := t.wishes.(refused := t.wishes.refused + Kinds(options)))
  }

  /** What the packets sent change: a request of ours is new and waits for its
      Ack, an Ack of ours agrees to what it holds. */
  function Said(protocol: u16, actions: seq<Action>, t: Terms): Terms {
    if actions == [] then t
    else
      var n := |actions| - 1;
      var before := Said(protocol, actions[..n], t);
      if IsControl(actions[n], protocol, CONF_REQ) && |actions[n].packet| >= 6 then
        before.(request := Some(actions[n].packet[6..]), acked := false)
      else if IsControl(actions[n], protocol, CONF_ACK) && |actions[n].packet| >= 6 then before.(agreed := ParseAll(actions[n].packet[6..]))
      else before
  }

  // ---- what they must say --------------------------------------------------------------

  function Get(t: Wishes, kind: byte, otherwise: u32): u32 { if kind in t.named then t.named[kind] else otherwise }

  function Wish(t: Wishes, asked: bool, kind: byte, data: bytes): seq<Opt> {
    if asked && kind !in t.refused then [Opt(kind, data)] else []
  }

  /** What we ask for: what was not refused, with the values named last. */
  function Wanted(first: Layer, t: Wishes): seq<Opt> {
    match first
    case Lcp(mru, magic, askMru, askMagic, _) =>
      Wish(t, askMru, LCP_MRU, Be16(if LCP_MRU in t.named && t.named[LCP_MRU] < 0x1_0000 then t.named[LCP_MRU] else mru))
      + Wish(t, askMagic, LCP_MAGIC, Be32(Get(t, LCP_MAGIC, magic)))
    case Ipcp(_, _, _, _, askAddress, askDns1, askDns2, _) =>
      Wish(t, askAddress, IPCP_ADDRESS, Be32(Get(t, IPCP_ADDRESS, 0)))
      + Wish(t, askDns1, IPCP_DNS1, Be32(Get(t, IPCP_DNS1, 0)))
      + Wish(t, askDns2, IPCP_DNS2, Be32(Get(t, IPCP_DNS2, 0)))
  }

  function Looked(t: Wishes, kind: byte): Option<u32> { if kind in t.named then Some(t.named[kind]) else None }

  /** The values of the layer are those. */
  predicate HasTerms(layer: Layer, first: Layer, t: Wishes) {
    && layer.Lcp? == first.Lcp?
    && if layer.Lcp? then
         && layer.mru == Get(t, LCP_MRU, first.mru) && layer.magic == Get(t, LCP_MAGIC, first.magic)
         && layer.askMru == (first.askMru && LCP_MRU !in t.refused) && layer.askMagic == (first.askMagic && LCP_MAGIC !in t.refused)
       else
         && layer.local == Get(t, IPCP_ADDRESS, 0) && layer.dns1 == Looked(t, IPCP_DNS1) && layer.dns2 == Looked(t, IPCP_DNS2)
         && layer.askAddress == (first.askAddress && IPCP_ADDRESS !in t.refused)
         && layer.askDns1 == (first.askDns1 && IPCP_DNS1 !in t.refused) && layer.askDns2 == (first.askDns2 && IPCP_DNS2 !in t.refused)
         && (forall k :: k in t.named ==> t.named[k] != 0)
  }

  lemma RequestIsWanted(layer: Layer, first: Layer, t: Wishes)
    requires HasTerms(layer, first, t)
    ensures layer.Request() == Wanted(first, t)
  {
  }

  /** The peer's request in force. */
  predicate PeerIs(layer: Layer, options: seq<Opt>) {
    if layer.Lcp? then layer.peerMru == MruOf(options) else layer.peer == AddressOf(options)
  }

  /** What is so of an automaton and the packets. */
  predicate Follows(f: Fsm, first: Layer, t: Terms) {
    && HasTerms(f.layer, first, t.wishes)
    && (t.request.Some? ==> ParseAll(t.request.value) == Some(Wanted(first, t.wishes)))
    && (Active(f.state) ==> t.request.Some?)
    && (f.state.AckRcvd? || f.state.Opened? ==> t.acked)
    && (f.state.AckSent? || f.state.Opened? ==> t.agreed == Some(f.peerOptions) && PeerIs(f.layer, f.peerOptions))
  }

  // ---- one automaton -------------------------------------------------------------------

  lemma AcceptOne(layer: Layer, first: Layer, t: Wishes, o: Opt)
    requires HasTerms(layer, first, t)
    ensures var v := Value(layer.Lcp?, o);
            HasTerms(layer.AcceptNak(o), first, if v.Some? then t.(named := t.named[o.kind := v.value]) else t)
    ensures HasTerms(layer.AcceptRej(o), first, t.(refused := t.refused + {o.kind}))
  {
  }

  lemma {:induction false} AcceptFollows(layer: Layer, first: Layer, t: Wishes, options: seq<Opt>)
    requires HasTerms(layer, first, t)
    ensures HasTerms(Accept(layer, options, false), first, t.(named := NamedBy(layer.Lcp?, options, t.named)))
    ensures HasTerms(Accept(layer, options, true), first, t.(refused := t.refused + Kinds(options)))
  {
    if options == [] {
      assert t.refused + Kinds([]) == t.refused;
    } else {
      var n := |options| - 1;
      AcceptFollows(layer, first, t, options[..n]);
      AcceptOne(Accept(layer, options[..n], false), first, t.(named := NamedBy(layer.Lcp?, options[..n], t.named)), options[n]);
      AcceptOne(Accept(layer, options[..n], true), first, t.(refused := t.refused + Kinds(options[..n])), options[n]);
      assert options == options[..n] + [options[n]];
      assert Kinds(options) == Kinds(options[..n]) + {options[n].kind};
      assert t.refused + Kinds(options) == t.refused + Kinds(options[..n]) + {options[n].kind};
    }
  }

  /** What one packet of ours says. */
  function SaidBy(code: byte, payload: bytes, t: Terms): Terms {
    if code == CONF_REQ then t.(request := Some(payload), acked := false)
    else if code == CONF_ACK then t.(agreed := ParseAll(payload))
    else t
  }

  lemma SaidNothing(protocol: u16, t: Terms)
    ensures Said(protocol, [], t) == t
  {
  }

  lemma SaidOne(layer: Layer, code: byte, id: byte, payload: bytes, protocol: u16, t: Terms)
    requires |payload| + 4 < 0x1_0000 && protocol in {LCP_PROTOCOL, IPCP_PROTOCOL}
    ensures Said(protocol, [Send(Packet(layer, code, id, payload))], t)
            == if layer.Protocol() == protocol then SaidBy(code, payload, t) else t
  {
    PacketReads(layer, code, id, payload);
    var actions := [Send(Packet(layer, code, id, payload))];
    assert actions[..0] == [];
    assert Be16(LCP_PROTOCOL) != Be16(IPCP_PROTOCOL);
  }

  lemma {:induction false} SaidMore(protocol: u16, a: seq<Action>, b: seq<Action>, t: Terms)
    ensures Said(protocol, a + b, t) == Said(protocol, b, Said(protocol, a, t))
  {
    if b == [] {
      assert a + b == a;
    } else {
      SaidMore(protocol, a, b[..|b| - 1], t);
      assert (a + b)[..|a + b| - 1] == a + b[..|b| - 1];
    }
  }

  lemma OursSaid(layer: Layer, code: byte, id: byte, payload: bytes, t: Terms)
    requires |payload| + 4 < 0x1_0000
    ensures Said(layer.Protocol(), [Send(Packet(layer, code, id, payload))], t) == SaidBy(code, payload, t)
  {
    SaidOne(layer, code, id, payload, layer.Protocol(), t);
  }

  lemma RequestSaid(layer: Layer, first: Layer, t: Wishes)
    requires HasTerms(layer, first, t)
    ensures |EncodeAll(layer.Request())| <= 18 && ParseAll(EncodeAll(layer.Request())) == Some(Wanted(first, t))
  {
    RequestFits(layer);
    RequestIsWanted(layer, first, t);
    ParsesBack(layer.Request());
  }

  /** A request sent is what the terms want. */
  lemma RequestFollows(f: Fsm, first: Layer, t: Terms, now: int)
    requires HasTerms(f.layer, first, t.wishes) && (f.state.AckSent? ==> t.agreed == Some(f.peerOptions) && PeerIs(f.layer, f.peerOptions))
    requires !f.state.AckRcvd? && !f.state.Opened?
    ensures var d := SendRequest(f, now); Follows(d.fsm, first, Said(f.layer.Protocol(), d.actions, t))
  {
    RequestSaid(f.layer, first, t.wishes);
    OursSaid(f.layer, CONF_REQ, f.id, EncodeAll(f.layer.Request()), t);
  }

  lemma {:induction false} AcceptKeepsPeer(layer: Layer, options: seq<Opt>, asReject: bool)
    ensures var l := Accept(layer, options, asReject);
            && l.Lcp? == layer.Lcp?
            && if l.Lcp? then l.peerMru == layer.peerMru else l.peer == layer.peer
  {
    if options != [] {
      AcceptKeepsPeer(layer, options[..|options| - 1], asReject);
    }
  }

  lemma NakFollows(f: Fsm, first: Layer, t: Terms, code: byte, id: byte, data: bytes, now: int)
    requires Follows(f, first, t) && code in {CONF_NAK, CONF_REJ} && !f.state.Closing?
    ensures var d := OnNakOrRej(f, code, id, data, now);
            Follows(d.fsm, first, Said(f.layer.Protocol(), d.actions, Told(f, code, id, data, t)))
  {
    var taken := TakenOver(f, code, id, data);
    if taken.Some? {
      var asReject := code == CONF_REJ || f.nakLoops + 1 > MAX_NAK_LOOPS;
      AcceptFollows(f.layer, first, t.wishes, taken.value);
      AcceptKeepsPeer(f.layer, taken.value, asReject);
      var g := f.(layer := Accept(f.layer, taken.value, asReject), nakLoops := f.nakLoops + 1,
                  state := if f.state.AckRcvd? then ReqSent else f.state, id := Next(f.id));
      RequestFollows(g, first, Told(f, code, id, data, t), now);
    } else {
      SaidNothing(f.layer.Protocol(), t);
    }
  }

  lemma AgreedFollows(f: Fsm, g: Fsm, first: Layer, t: Terms, options: seq<Opt>)
    requires Follows(f, first, t) && f.state.Negotiating() && g == Answered(f, true, options).0
    ensures Follows(g, first, t.(agreed := Some(options)))
  {
  }

  lemma RefusedFollows(f: Fsm, g: Fsm, first: Layer, t: Terms, options: seq<Opt>)
    requires Follows(f, first, t) && f.state.Negotiating() && g == Answered(f, false, options).0
    ensures Follows(g, first, t)
  {
  }

  lemma NegotiatedFollows(f: Fsm, first: Layer, t: Terms, id: byte, data: bytes, randoms: nat -> u32)
    requires Follows(f, first, t) && f.state.Negotiating() && |data| + 4 < 0x1_0000 && ParseAll(data).Some?
    ensures var d := OnRequest(f, id, data, randoms); Follows(d.fsm, first, Said(f.layer.Protocol(), d.actions, t))
  {
    var options := ParseAll(data).value;
    var r := AnswerSent(f, id, data, randoms);
    AnswerCode(f.layer, options, randoms);
    var d := OnRequest(f, id, data, randoms);
    assert d.actions == [Send(Packet(f.layer, r.0, id, EncodeAll(r.1)))];
    OursSaid(f.layer, r.0, id, EncodeAll(r.1), t);
    if r.0 == CONF_ACK {
      AgreedFollows(f, d.fsm, first, t, options);
    } else {
      RefusedFollows(f, d.fsm, first, t, options);
    }
  }

  lemma OpenedFollows(f: Fsm, first: Layer, t: Terms, id: byte, data: bytes, randoms: nat -> u32)
    requires Follows(f, first, t) && !f.state.Negotiating() && !f.state.Closing? && |data| + 4 < 0x1_0000 && ParseAll(data).Some?
    ensures var d := OnRequest(f, id, data, randoms); Follows(d.fsm, first, Said(f.layer.Protocol(), d.actions, t))
  {
    SaidNothing(f.layer.Protocol(), t);
    OursSaid(f.layer, CONF_ACK, id, data, t);
  }

  lemma RequestHandled(f: Fsm, first: Layer, t: Terms, id: byte, data: bytes, randoms: nat -> u32)
    requires Follows(f, first, t) && !f.state.Closing? && |data| + 4 < 0x1_0000
    ensures var d := OnRequest(f, id, data, randoms); Follows(d.fsm, first, Said(f.layer.Protocol(), d.actions, t))
  {
    if ParseAll(data).None? {
      SaidNothing(f.layer.Protocol(), t);
    } else if f.state.Negotiating() {
      NegotiatedFollows(f, first, t, id, data, randoms);
    } else {
      OpenedFollows(f, first, t, id, data, randoms);
    }
  }

  /** The automaton only fell back, or ended. */
  predicate FallsBack(f: Fsm, g: Fsm) {
    && g.layer == f.layer && g.peerOptions == f.peerOptions
    && (g.state == f.state || !Active(g.state) || (f.state.AckRcvd? && g.state.ReqSent?))
  }

  lemma StillFollows(f: Fsm, g: Fsm, first: Layer, t: Terms, acked: bool)
    requires Follows(f, first, t) && FallsBack(f, g) && (t.acked ==> acked)
    ensures Follows(g, first, t.(acked := acked))
  {
  }

  lemma AckHandled(f: Fsm, first: Layer, t: Terms, id: byte)
    requires Follows(f, first, t) && !f.state.Closing?
    ensures Follows(OnAck(f, id).fsm, first, t.(acked := t.acked || id == f.id)) && OnAck(f, id).actions == []
  {
  }

  lemma OtherFallsBack(f: Fsm, code: byte, id: byte, data: bytes, now: int, randoms: nat -> u32, t: Terms)
    requires |data| + 4 < 0x1_0000 && code !in {CONF_REQ, CONF_ACK, CONF_NAK, CONF_REJ}
    ensures var d := Handle(f, code, id, data, now, randoms); FallsBack(f, d.fsm) && Said(f.layer.Protocol(), d.actions, t) == t
  {
    SaidNothing(f.layer.Protocol(), t);
    OursSaid(f.layer, TERM_ACK, id, [], t);
    OursSaid(f.layer, CODE_REJ, Next(f.id), Truncated([code, id] + Be16(|data| + 4) + data, RejectLimit(f)), t);
  }

  /** Packets that change no terms. */
  lemma OtherHandled(f: Fsm, first: Layer, t: Terms, code: byte, id: byte, data: bytes, now: int, randoms: nat -> u32)
    requires Follows(f, first, t) && |data| + 4 < 0x1_0000 && code !in {CONF_REQ, CONF_NAK, CONF_REJ}
    ensures var d := Handle(f, code, id, data, now, randoms);
            Follows(d.fsm, first, Said(f.layer.Protocol(), d.actions, Told(f, code, id, data, t)))
  {
    var t' := Told(f, code, id, data, t);
    SaidNothing(f.layer.Protocol(), t');
    if code == CONF_ACK {
      if f.state.Closing? {
        StillFollows(f, f, first, t, t.acked);
      } else {
        AckHandled(f, first, t, id);
      }
    } else {
      OtherFallsBack(f, code, id, data, now, randoms, t');
      StillFollows(f, Handle(f, code, id, data, now, randoms).fsm, first, t, t.acked);
    }
  }

  lemma HandleFollows(f: Fsm, first: Layer, t: Terms, code: byte, id: byte, data: bytes, now: int, randoms: nat -> u32)
    requires Follows(f, first, t) && |data| + 4 < 0x1_0000
    ensures var d := Handle(f, code, id, data, now, randoms);
            Follows(d.fsm, first, Said(f.layer.Protocol(), d.actions, Told(f, code, id, data, t)))
  {
    if f.state.Closing? && code != TERM_ACK && code != TERM_REQ {
      SaidNothing(f.layer.Protocol(), t);
    } else if code == CONF_REQ {
      RequestHandled(f, first, t, id, data, randoms);
    } else if code == CONF_NAK || code == CONF_REJ {
      NakFollows(f, first, t, code, id, data, now);
    } else {
      OtherHandled(f, first, t, code, id, data, now, randoms);
    }
  }

  lemma LcpHandleFollows(f: Fsm, first: Layer, t: Terms, code: byte, id: byte, data: bytes, now: int, randoms: nat -> u32)
    requires Follows(f, first, t) && f.layer.Lcp? && |data| + 4 < 0x1_0000
    ensures var d := LcpHandle(f, code, id, data, now, randoms);
            Follows(d.fsm, first, Said(LCP_PROTOCOL, d.actions, Told(f, code, id, data, t)))
  {
    if code in {ECHO_REQ, ECHO_REPLY, DISCARD_REQ, IDENTIFICATION, TIME_REMAINING, PROTO_REJ} {
      SaidNothing(LCP_PROTOCOL, t);
      OursSaid(f.layer, ECHO_REPLY, id, Be32(f.layer.magic) + Dropped(data, 4), t);
    } else {
      HandleFollows(f, first, t, code, id, data, now, randoms);
    }
  }

  lemma ExpireFollows(f: Fsm, first: Layer, t: Terms, now: int)
    requires Follows(f, first, t)
    ensures var d := Expire(f, now); Follows(d.fsm, first, Said(f.layer.Protocol(), d.actions, t))
  {
    SaidNothing(f.layer.Protocol(), t);
    if Due(f, now) && f.retransmits > 0 {
      var g := f.(retransmits := f.retransmits - 1);
      OursSaid(f.layer, TERM_REQ, Next(f.id), [], t);
      if f.state.Negotiating() {
        RequestFollows(if f.state.AckRcvd? then g.(state := ReqSent) else g, first, t, now);
      }
    }
  }

  lemma StartFollows(f: Fsm, first: Layer, t: Terms, now: int)
    requires HasTerms(f.layer, first, t.wishes)
    ensures var d := Start(f, now); Follows(d.fsm, first, Said(f.layer.Protocol(), d.actions, t))
  {
    RequestFollows(f.(state := ReqSent, retransmits := f.layer.MaxConfigure(), nakLoops := 0, id := Next(f.id)), first, t, now);
  }

  lemma FinishFollows(f: Fsm, first: Layer, t: Terms, now: int)
    requires Follows(f, first, t)
    ensures var d := Finish(f, now).0; Follows(d.fsm, first, Said(f.layer.Protocol(), d.actions, t))
  {
    SaidNothing(f.layer.Protocol(), t);
    OursSaid(f.layer, TERM_REQ, Next(f.id), [], t);
  }

  // ---- the link --------------------------------------------------------------------------

  /** The terms of both layers. */
  datatype History = History(lcp: Terms, ipcp: Terms)

  function Heard(p: Link, h: History, ev: Event): History {
    if ev.Receives? && |ev.packet| >= 2 then
      match ParseControl(ev.packet[2..])
      case None => h
      case Some((code, id, data)) =>
        if FromBe16(ev.packet[..2]) == LCP_PROTOCOL then h.(lcp := Told(p.lcp, code, id, data, h.lcp))
        else if FromBe16(ev.packet[..2]) == IPCP_PROTOCOL && p.lcp.state.Opened? then h.(ipcp := Told(p.ipcp, code, id, data, h.ipcp))
        else h
    else h
  }

  function Spoken(actions: seq<Action>, h: History): History {
    History(Said(LCP_PROTOCOL, actions, h.lcp), Said(IPCP_PROTOCOL, actions, h.ipcp))
  }

  /** The terms after a run. */
  ghost function HistoryOf(link: Link, events: seq<Event>): History
    requires Typed(link)
    decreases |events|
  {
    if events == [] then History(NO_TERMS, NO_TERMS)
    else
      var before, ev := events[..|events| - 1], events[|events| - 1];
      var p := Run(link, before).link;
      Spoken(Step(p, ev).1, Heard(p, HistoryOf(link, before), ev))
  }

  predicate LinkFollows(p: Link, first: Link, h: History) {
    Follows(p.lcp, first.lcp.layer, h.lcp) && Follows(p.ipcp, first.ipcp.layer, h.ipcp)
  }

  /** The packets of one layer say nothing about the other. */
  lemma OthersSayNothing(f: Fsm, actions: seq<Action>, protocol: u16, t: Terms)
    requires actions == [] || SendsOwn(f, actions)
    requires protocol in {LCP_PROTOCOL, IPCP_PROTOCOL} && protocol != f.layer.Protocol()
    ensures Said(protocol, actions, t) == t
  {
    if actions != [] {
      assert actions[..0] == [] && Be16(LCP_PROTOCOL) != Be16(IPCP_PROTOCOL);
    }
  }

  lemma SpokenMore(a: seq<Action>, b: seq<Action>, h: History)
    ensures Spoken(a + b, h) == Spoken(b, Spoken(a, h))
  {
    SaidMore(LCP_PROTOCOL, a, b, h.lcp);
    SaidMore(IPCP_PROTOCOL, a, b, h.ipcp);
  }

  lemma UnsentSaysNothing(a: Action, h: History)
    requires !a.Send?
    ensures Spoken([a], h) == h
  {
    assert [a][..0] == [];
    assert Said(LCP_PROTOCOL, [a], h.lcp) == h.lcp && Said(IPCP_PROTOCOL, [a], h.ipcp) == h.ipcp;
  }

  lemma ReportFollows(p: Link, first: Link, h: History, reason: Reason)
    requires LinkFollows(p, first, h)
    ensures LinkFollows(ReportDown(p, reason).0, first, Spoken(ReportDown(p, reason).1, h))
  {
    if !p.down {
      UnsentSaysNothing(Down(reason), h);
    }
  }

  lemma StartIpcpFollows(p: Link, first: Link, h: History, now: int)
    requires LinkFollows(p, first, h) && Typed(p)
    ensures LinkFollows(StartIpcp(p, now).0, first, Spoken(StartIpcp(p, now).1, h))
  {
    var f := p.ipcp.(layer := p.ipcp.layer.(linkMru := p.lcp.layer.PeerMru()));
    StartFollows(f, first.ipcp.layer, h.ipcp, now);
    RequestFits(f.layer);
    OnePacket(f, f.layer, CONF_REQ, Next(f.id), EncodeAll(f.layer.Request()));
    OthersSayNothing(f, Start(f, now).actions, LCP_PROTOCOL, h.lcp);
  }

  lemma CloseLcpFollows(p: Link, first: Link, h: History, now: int)
    requires LinkFollows(p, first, h) && Typed(p)
    ensures LinkFollows(CloseLcp(p, now).0, first, Spoken(CloseLcp(p, now).1, h))
  {
    FinishFollows(p.lcp, first.lcp.layer, h.lcp, now);
    OnePacket(p.lcp, p.lcp.layer, TERM_REQ, Next(p.lcp.id), []);
    OthersSayNothing(p.lcp, CloseLcp(p, now).1, IPCP_PROTOCOL, h.ipcp);
  }

  lemma CloseReportFollows(p: Link, first: Link, h: History, reason: Reason, now: int)
    requires LinkFollows(p, first, h) && Typed(p)
    ensures var (q, actions) := CloseLcp(p, now);
            LinkFollows(ReportDown(q, reason).0, first, Spoken(actions + ReportDown(q, reason).1, h))
  {
    var (q, actions) := CloseLcp(p, now);
    CloseLcpFollows(p, first, h, now);
    ReportFollows(q, first, Spoken(actions, h), reason);
    SpokenMore(actions, ReportDown(q, reason).1, h);
  }

  lemma AfterLcpFollows(p: Link, first: Link, h: History, d: Done, now: int)
    requires Typed(p) && d.fsm.layer.Lcp? && (d.actions == [] || SendsOwn(p.lcp, d.actions))
    requires Follows(d.fsm, first.lcp.layer, Said(LCP_PROTOCOL, d.actions, h.lcp)) && Follows(p.ipcp, first.ipcp.layer, h.ipcp)
    ensures LinkFollows(AfterLcp(p, d, now).0, first, Spoken(AfterLcp(p, d, now).1, h))
  {
    OthersSayNothing(p.lcp, d.actions, IPCP_PROTOCOL, h.ipcp);
    var p' := p.(lcp := d.fsm);
    var h' := Spoken(d.actions, h);
    assert LinkFollows(p', first, h');
    if d.outcome.Some? {
      if d.outcome.value.LayerUp? {
        StartIpcpFollows(p', first, h', now);
      } else {
        ReportFollows(p', first, h', d.outcome.value.reason);
      }
      SpokenMore(d.actions, OnLcp(p', d.outcome.value, now).1, h);
    }
  }

  lemma OnIpcpFollows(p: Link, first: Link, h: History, outcome: Outcome, now: int)
    requires Typed(p) && LinkFollows(p, first, h)
    ensures LinkFollows(OnIpcp(p, outcome, now).0, first, Spoken(OnIpcp(p, outcome, now).1, h))
  {
    match outcome
    case LayerUp =>
      if p.ipcp.layer.local == UNSPECIFIED {
        CloseReportFollows(p.(ipcp := p.ipcp.(state := Closed)), first, h, NoAddress, now);
      } else {
        UnsentSaysNothing(Up(AddressesOf(p)), h);
      }
    case LayerDown(reason) =>
      if p.lcp.state.Opened? {
        CloseReportFollows(p, first, h, reason, now);
      } else {
        ReportFollows(p, first, h, reason);
        assert [] + ReportDown(p, reason).1 == ReportDown(p, reason).1;
      }
  }

  lemma AfterIpcpFollows(p: Link, first: Link, h: History, d: Done, now: int)
    requires Typed(p) && d.fsm.layer.Ipcp? && (d.actions == [] || SendsOwn(p.ipcp, d.actions))
    requires Follows(p.lcp, first.lcp.layer, h.lcp) && Follows(d.fsm, first.ipcp.layer, Said(IPCP_PROTOCOL, d.actions, h.ipcp))
    ensures LinkFollows(AfterIpcp(p, d, now).0, first, Spoken(AfterIpcp(p, d, now).1, h))
  {
    OthersSayNothing(p.ipcp, d.actions, LCP_PROTOCOL, h.lcp);
    var p' := p.(ipcp := d.fsm);
    var h' := Spoken(d.actions, h);
    assert LinkFollows(p', first, h');
    if d.outcome.Some? {
      OnIpcpFollows(p', first, h', d.outcome.value, now);
      SpokenMore(d.actions, OnIpcp(p', d.outcome.value, now).1, h);
    }
  }

  lemma TimeoutFollows(p: Link, first: Link, h: History, now: int)
    requires Typed(p) && LinkFollows(p, first, h)
    ensures LinkFollows(Timeout(p, now).0, first, Spoken(Timeout(p, now).1, h))
  {
    var d := Expire(p.lcp, now);
    ExpireMoves(p.lcp, now);
    ExpireFollows(p.lcp, first.lcp.layer, h.lcp, now);
    AfterLcpFollows(p, first, h, d, now);
    var (q, actions) := AfterLcp(p, d, now);
    var e := Expire(q.ipcp, now);
    ExpireMoves(q.ipcp, now);
    ExpireFollows(q.ipcp, first.ipcp.layer, Spoken(actions, h).ipcp, now);
    AfterIpcpFollows(q, first, Spoken(actions, h), e, now);
    SpokenMore(actions, AfterIpcp(q, e, now).1, h);
  }

  lemma CloseFollows(p: Link, first: Link, h: History, now: int)
    requires Typed(p) && LinkFollows(p, first, h)
    ensures LinkFollows(CloseLink(p, now).0, first, Spoken(CloseLink(p, now).1, h))
  {
    var p' := p.(ipcp := p.ipcp.(state := Closed, timer := None));
    CloseLcpFollows(p', first, h, now);
    CloseReportFollows(p', first, h, LinkClosed, now);
  }

  lemma OpenFollows(p: Link, first: Link, h: History, now: int)
    requires Typed(p) && LinkFollows(p, first, h)
    ensures LinkFollows(OpenLink(p, now).0, first, Spoken(OpenLink(p, now).1, h))
  {
    StartFollows(p.lcp, first.lcp.layer, h.lcp, now);
    RequestFits(p.lcp.layer);
    OnePacket(p.lcp, p.lcp.layer, CONF_REQ, Next(p.lcp.id), EncodeAll(p.lcp.layer.Request()));
    OthersSayNothing(p.lcp, Start(p.lcp, now).actions, IPCP_PROTOCOL, h.ipcp);
  }

  lemma SpokenNothing(h: History)
    ensures Spoken([], h) == h
  {
  }

  lemma LcpControlFollows(p: Link, first: Link, h: History, code: byte, id: byte, data: bytes, now: int, randoms: nat -> u32)
    requires Typed(p) && LinkFollows(p, first, h) && |data| + 4 < 0x1_0000
    ensures var d := LcpHandle(p.lcp, code, id, data, now, randoms);
            && d.fsm.layer.Lcp?
            && LinkFollows(AfterLcp(p, d, now).0, first, Spoken(AfterLcp(p, d, now).1, h.(lcp := Told(p.lcp, code, id, data, h.lcp))))
  {
    var d := LcpHandle(p.lcp, code, id, data, now, randoms);
    LcpHandleMoves(p.lcp, code, id, data, now, randoms);
    LcpHandleFollows(p.lcp, first.lcp.layer, h.lcp, code, id, data, now, randoms);
    AfterLcpFollows(p, first, h.(lcp := Told(p.lcp, code, id, data, h.lcp)), d, now);
  }

  lemma IpcpControlFollows(p: Link, first: Link, h: History, code: byte, id: byte, data: bytes, now: int, randoms: nat -> u32)
    requires Typed(p) && LinkFollows(p, first, h) && |data| + 4 < 0x1_0000
    ensures var d := Handle(p.ipcp, code, id, data, now, randoms);
            && d.fsm.layer.Ipcp?
            && LinkFollows(AfterIpcp(p, d, now).0, first, Spoken(AfterIpcp(p, d, now).1, h.(ipcp := Told(p.ipcp, code, id, data, h.ipcp))))
  {
    var d := Handle(p.ipcp, code, id, data, now, randoms);
    HandleMoves(p.ipcp, code, id, data, now, randoms);
    HandleSpends(p.ipcp, code, id, data, now, randoms);
    HandleFollows(p.ipcp, first.ipcp.layer, h.ipcp, code, id, data, now, randoms);
    AfterIpcpFollows(p, first, h.(ipcp := Told(p.ipcp, code, id, data, h.ipcp)), d, now);
  }

  lemma RejectFollows(p: Link, first: Link, h: History, packet: bytes)
    requires Typed(p) && LinkFollows(p, first, h)
    ensures var id := Next(p.lcp.id);
            LinkFollows(p.(lcp := p.lcp.(id := id)), first,
                        Spoken([Send(Packet(p.lcp.layer, PROTO_REJ, id, Truncated(packet, RejectLimit(p.lcp))))], h))
  {
    var payload := Truncated(packet, RejectLimit(p.lcp));
    OursSaid(p.lcp.layer, PROTO_REJ, Next(p.lcp.id), payload, h.lcp);
    SaidOne(p.lcp.layer, PROTO_REJ, Next(p.lcp.id), payload, IPCP_PROTOCOL, h.ipcp);
  }

  lemma InputFollows(p: Link, first: Link, h: History, packet: bytes, now: int, randoms: nat -> u32)
    requires Typed(p) && LinkFollows(p, first, h)
    ensures var ev := Receives(packet, now, randoms);
            LinkFollows(Step(p, ev).0, first, Spoken(Step(p, ev).1, Heard(p, h, ev)))
  {
    SpokenNothing(h);
    if |packet| >= 2 {
      var protocol := FromBe16(packet[..2]);
      if protocol == LCP_PROTOCOL || protocol == IPCP_PROTOCOL {
        match ParseControl(packet[2..])
        case None =>
        case Some((code, id, data)) =>
          if protocol == LCP_PROTOCOL {
            LcpControlFollows(p, first, h, code, id, data, now, randoms);
          } else if p.lcp.state.Opened? {
            IpcpControlFollows(p, first, h, code, id, data, now, randoms);
          }
      } else if protocol == IP_PROTOCOL {
        UnsentSaysNothing(Deliver(packet[2..]), h);
      } else {
        RejectFollows(p, first, h, packet);
      }
    }
  }

  lemma StepFollows(p: Link, first: Link, h: History, ev: Event)
    requires Typed(p) && LinkFollows(p, first, h)
    ensures LinkFollows(Step(p, ev).0, first, Spoken(Step(p, ev).1, Heard(p, h, ev)))
  {
    match ev
    case Opens(now) => OpenFollows(p, first, h, now);
    case Closes(now) => CloseFollows(p, first, h, now);
    case Expires(now) => TimeoutFollows(p, first, h, now);
    case Receives(packet, now, randoms) => InputFollows(p, first, h, packet, now, randoms);
  }

  lemma {:induction false} RunFollows(mru: u16, magic: u32, askDns: bool, events: seq<Event>)
    ensures var link := NewLink(mru, magic, askDns); LinkFollows(Run(link, events).link, link, HistoryOf(link, events))
    decreases |events|
  {
    if events != [] {
      var link, before := NewLink(mru, magic, askDns), events[..|events| - 1];
      RunFollows(mru, magic, askDns, before);
      StepFollows(Run(link, before).link, link, HistoryOf(link, before), events[|events| - 1]);
    }
  }

  // ---- what comes up ---------------------------------------------------------------------

  /** The values of these options, as far as they were named. */
  function Given(w: Wishes, kinds: seq<byte>): seq<u32> {
    if kinds == [] then [] else (if kinds[0] in w.named then [w.named[kinds[0]]] else []) + Given(w, kinds[1..])
  }

  /** The first option of a kind, of the peer's request. */
  ghost predicate IsFirst(options: seq<Opt>, kind: byte, i: int) {
    0 <= i < |options| && options[i].kind == kind && forall j :: 0 <= j < i ==> options[j].kind != kind
  }

  /** The peer takes packets of this size: as its first MRU option says, or
      1500 bytes. */
  ghost predicate PeerTakes(options: seq<Opt>, mru: nat) {
    && (forall i :: IsFirst(options, LCP_MRU, i) ==> mru == if |options[i].data| == 2 then FromBe16(options[i].data) else 1500)
    && ((forall i :: 0 <= i < |options| ==> options[i].kind != LCP_MRU) ==> mru == 1500)
  }

  /** The peer has this address: as its first Address option says, or
      10.64.64.64. */
  ghost predicate PeerAt(options: seq<Opt>, address: u32) {
    && (forall i :: IsFirst(options, IPCP_ADDRESS, i) ==>
          address == if |options[i].data| == 4 then FromBe32(options[i].data) else 0x0a40_4040)
    && ((forall i :: 0 <= i < |options| ==> options[i].kind != IPCP_ADDRESS) ==> address == 0x0a40_4040)
  }

  lemma {:induction false} FindsFirst(options: seq<Opt>, kind: byte)
    ensures forall i :: IsFirst(options, kind, i) ==> Find(options, kind) == Some(options[i])
    ensures Find(options, kind).None? <==> forall i :: 0 <= i < |options| ==> options[i].kind != kind
  {
    if options != [] {
      FindsFirst(options[1..], kind);
      forall i | IsFirst(options, kind, i) ensures Find(options, kind) == Some(options[i]) {
        if i > 0 {
          assert options[0].kind != kind;
          forall j | 0 <= j < i - 1 ensures options[1..][j].kind != kind {
            assert options[1..][j] == options[j + 1];
          }
          assert IsFirst(options[1..], kind, i - 1);
        }
      }
      if Find(options, kind).None? {
        forall i | 0 <= i < |options| ensures options[i].kind != kind {
          assert i > 0 ==> options[i] == options[1..][i - 1];
        }
      } else if Find(options[1..], kind).Some? {
        var i :| 0 <= i < |options[1..]| && options[1..][i].kind == kind;
        assert options[i + 1].kind == kind;
      }
    }
  }

  /** Our request, as last sent, and that the peer acknowledged it. */
  ghost predicate Asked(t: Terms, first: Layer) {
    t.request.Some? && ParseAll(t.request.value) == Some(Wanted(first, t.wishes)) && t.acked
  }

  /** The addresses of an Up: our own is what a Nak of the peer named last and
      what our acknowledged request asks for, unless the option was refused;
      the nameservers are those Naks named last, primary first; the peer's
      address and the size are those of its requests we acknowledged, and the
      size is not above our own. */
  ghost predicate AsAgreed(first: Link, mru: u16, h: History, a: Addresses) {
    var w := h.ipcp.wishes;
    && IPCP_ADDRESS in w.named && a.local == w.named[IPCP_ADDRESS]
    && Asked(h.ipcp, first.ipcp.layer)
    && (IPCP_ADDRESS !in w.refused ==> Opt(IPCP_ADDRESS, Be32(a.local)) in ParseAll(h.ipcp.request.value).value)
    && a.dns == Given(w, [IPCP_DNS1, IPCP_DNS2])
    && h.ipcp.agreed.Some? && PeerAt(h.ipcp.agreed.value, a.peer)
    && Asked(h.lcp, first.lcp.layer) && h.lcp.agreed.Some?
    && exists theirs: nat :: PeerTakes(h.lcp.agreed.value, theirs)
         && a.mtu == (var ours := Get(h.lcp.wishes, LCP_MRU, mru); if theirs < ours then theirs else ours)
  }

  lemma PeersAsAgreed(p: Link, h: History)
    requires Typed(p) && PeerIs(p.lcp.layer, p.lcp.peerOptions) && PeerIs(p.ipcp.layer, p.ipcp.peerOptions)
    ensures PeerAt(p.ipcp.peerOptions, AddressesOf(p).peer) && PeerTakes(p.lcp.peerOptions, p.lcp.layer.peerMru)
  {
    FindsFirst(p.ipcp.peerOptions, IPCP_ADDRESS);
    FindsFirst(p.lcp.peerOptions, LCP_MRU);
  }

  lemma OursAsAgreed(p: Link, first: Link, h: History)
    requires Typed(p) && Typed(first) && HasTerms(p.ipcp.layer, first.ipcp.layer, h.ipcp.wishes)
    requires p.ipcp.layer.local != 0 && first.ipcp.layer.askAddress
    ensures var a, w := AddressesOf(p), h.ipcp.wishes;
            && IPCP_ADDRESS in w.named && a.local == w.named[IPCP_ADDRESS] && a.dns == Given(w, [IPCP_DNS1, IPCP_DNS2])
            && (IPCP_ADDRESS !in w.refused ==> Opt(IPCP_ADDRESS, Be32(a.local)) in Wanted(first.ipcp.layer, w))
  {
    var a, w := AddressesOf(p), h.ipcp.wishes;
    if IPCP_ADDRESS !in w.refused {
      assert Wanted(first.ipcp.layer, w)[0] == Opt(IPCP_ADDRESS, Be32(a.local));
    }
    assert [IPCP_DNS1, IPCP_DNS2][1..] == [IPCP_DNS2] && [IPCP_DNS2][1..] == [];
    assert Given(w, [IPCP_DNS2]) == Specified(Looked(w, IPCP_DNS2));
  }

  lemma AddressesAsAgreed(p: Link, first: Link, mru: u16, h: History)
    requires Typed(p) && Typed(first) && LinkFollows(p, first, h) && p.lcp.state.Opened? && p.ipcp.state.Opened?
    requires p.ipcp.layer.local != 0 && first.ipcp.layer.askAddress && first.lcp.layer.mru == mru
    ensures AsAgreed(first, mru, h, AddressesOf(p))
  {
    PeersAsAgreed(p, h);
    OursAsAgreed(p, first, h);
    assert h.lcp.agreed == Some(p.lcp.peerOptions);
  }

  lemma HistoryMore(link: Link, events: seq<Event>, ev: Event)
    requires Typed(link)
    ensures var p := Run(link, events).link;
            && HistoryOf(link, events + [ev]) == Spoken(Step(p, ev).1, Heard(p, HistoryOf(link, events), ev))
            && Run(link, events + [ev]).link == Step(p, ev).0
  {
    assert (events + [ev])[..|events + [ev]| - 1] == events;
  }

  /** Over every run with one open: an Up carries what both sides have agreed
      to in the packets of the run. */
  lemma UpIsAsAgreed(mru: u16, magic: u32, askDns: bool, events: seq<Event>, ev: Event, a: Action)
    requires OpensIn(events + [ev]) <= 1
    requires a in Step(Run(NewLink(mru, magic, askDns), events).link, ev).1 && a.Up?
    ensures AsAgreed(NewLink(mru, magic, askDns), mru, HistoryOf(NewLink(mru, magic, askDns), events + [ev]), a.addresses)
  {
    var link := NewLink(mru, magic, askDns);
    var p := Run(link, events).link;
    assert (events + [ev])[..|events|] == events;
    RunHolds(mru, magic, askDns, events);
    RunFollows(mru, magic, askDns, events);
    StepFollows(p, link, HistoryOf(link, events), ev);
    HistoryMore(link, events, ev);
    StepUp(p, ev, a);
    UpNeedsLcp(mru, magic, askDns, events, ev, a);
    AddressesAsAgreed(Step(p, ev).0, link, mru, HistoryOf(link, events + [ev]));
  }

  // ---- how large a packet the peer takes ---------------------------------------------------

  /** While LCP is open, IPCP knows what the peer takes. */
  predicate KnowsSize(p: Link)
    requires Typed(p)
  {
    p.lcp.state.Opened? ==> p.ipcp.layer.linkMru == p.lcp.layer.peerMru
  }

  /** LCP did not become open, or it says so; what the peer takes stays. */
  predicate StaysOpen(f: Fsm, d: Done)
    requires f.layer.Lcp?
  {
    && d.fsm.layer.Lcp?
    && (d.fsm.state.Opened? ==> d.outcome == Some(LayerUp) || (f.state.Opened? && d.fsm.layer.peerMru == f.layer.peerMru))
  }

  lemma {:induction false} AcceptKeepsSize(layer: Layer, options: seq<Opt>, asReject: bool)
    requires layer.Ipcp?
    ensures Accept(layer, options, asReject).Ipcp? && Accept(layer, options, asReject).linkMru == layer.linkMru
  {
    if options != [] {
      AcceptKeepsSize(layer, options[..|options| - 1], asReject);
    }
  }

  lemma HandleKeepsSize(f: Fsm, code: byte, id: byte, data: bytes, now: int, randoms: nat -> u32)
    requires f.layer.Ipcp? && |data| + 4 < 0x1_0000
    ensures var g := Handle(f, code, id, data, now, randoms).fsm; g.layer.Ipcp? && g.layer.linkMru == f.layer.linkMru
  {
    if ParseAll(data).Some? {
      AcceptKeepsSize(f.layer, ParseAll(data).value, code == CONF_REJ || f.nakLoops + 1 > MAX_NAK_LOOPS);
    }
  }

  lemma LcpStaysOpen(f: Fsm, code: byte, id: byte, data: bytes, now: int, randoms: nat -> u32)
    requires f.layer.Lcp? && |data| + 4 < 0x1_0000
    ensures StaysOpen(f, LcpHandle(f, code, id, data, now, randoms))
  {
    HandleKeepsLayer(f, code, id, data, now, randoms);
  }

  lemma AfterLcpKnows(p: Link, d: Done, now: int)
    requires Typed(p) && KnowsSize(p) && StaysOpen(p.lcp, d)
    ensures KnowsSize(AfterLcp(p, d, now).0)
  {
  }

  lemma AfterIpcpKnows(p: Link, d: Done, now: int)
    requires Typed(p) && KnowsSize(p) && d.fsm.layer.Ipcp? && d.fsm.layer.linkMru == p.ipcp.layer.linkMru
    ensures KnowsSize(AfterIpcp(p, d, now).0)
  {
  }

  lemma TimeoutKnows(p: Link, now: int)
    requires Typed(p) && KnowsSize(p)
    ensures KnowsSize(Timeout(p, now).0)
  {
    AfterLcpKnows(p, Expire(p.lcp, now), now);
    var q := AfterLcp(p, Expire(p.lcp, now), now).0;
    AfterIpcpKnows(q, Expire(q.ipcp, now), now);
  }

  lemma ControlKnows(p: Link, toLcp: bool, payload: bytes, now: int, randoms: nat -> u32)
    requires Typed(p) && KnowsSize(p)
    ensures KnowsSize(Control(p, toLcp, payload, now, randoms).0)
  {
    if ParseControl(payload).Some? {
      var (code, id, data) := ParseControl(payload).value;
      if toLcp {
        LcpStaysOpen(p.lcp, code, id, data, now, randoms);
        AfterLcpKnows(p, LcpHandle(p.lcp, code, id, data, now, randoms), now);
      } else {
        HandleKeepsSize(p.ipcp, code, id, data, now, randoms);
        AfterIpcpKnows(p, Handle(p.ipcp, code, id, data, now, randoms), now);
      }
    }
  }

  lemma StepKnowsSize(p: Link, ev: Event)
    requires Typed(p) && KnowsSize(p)
    ensures KnowsSize(Step(p, ev).0)
  {
    match ev
    case Opens(now) =>
    case Closes(now) =>
    case Expires(now) => TimeoutKnows(p, now);
    case Receives(packet, now, randoms) =>
      if |packet| >= 2 {
        ControlKnows(p, FromBe16(packet[..2]) == LCP_PROTOCOL, packet[2..], now, randoms);
      }
  }

  /** Over every run: while LCP is open, both layers take for the largest packet
      of the peer what its acknowledged request says. */
  lemma {:induction false} SizeIsAsAgreed(mru: u16, magic: u32, askDns: bool, events: seq<Event>)
    ensures var link := NewLink(mru, magic, askDns);
            var p, h := Run(link, events).link, HistoryOf(link, events);
            && KnowsSize(p)
            && (p.lcp.state.Opened? ==>
                  && h.lcp.agreed.Some? && PeerTakes(h.lcp.agreed.value, p.ipcp.layer.PeerMru())
                  && p.lcp.layer.PeerMru() == p.ipcp.layer.PeerMru())
    decreases |events|
  {
    var link := NewLink(mru, magic, askDns);
    if events != [] {
      SizeIsAsAgreed(mru, magic, askDns, events[..|events| - 1]);
      StepKnowsSize(Run(link, events[..|events| - 1]).link, events[|events| - 1]);
    }
    RunFollows(mru, magic, askDns, events);
    FindsFirst(Run(link, events).link.lcp.peerOptions, LCP_MRU);
  }
}
