/** Every run of a PPP link: how its layers stack, and how much it can send,
    whatever the peer sends. */
module PppRuns {
  import opened Bytes
  import opened PppOptions
  import opened PppFsm
  import opened PppLink

  datatype Event = Opens(now: int) | Closes(now: int) | Expires(now: int) | Receives(packet: bytes, now: int, randoms: nat -> u32)

  function Step(p: Link, ev: Event): (r: (Link, seq<Action>))
    requires Typed(p)
    ensures Typed(r.0)
  {
    match ev
    case Opens(now) => OpenLink(p, now)
    case Closes(now) => CloseLink(p, now)
    case Expires(now) => Timeout(p, now)
    case Receives(packet, now, randoms) => Input(p, packet, now, randoms)
  }

  // ---- counting -----------------------------------------------------------------

  function Count(actions: seq<Action>, f: Action -> bool): nat {
    if actions == [] then 0
    else Count(actions[..|actions| - 1], f) + if f(actions[|actions| - 1]) then 1 else 0
  }

  lemma {:induction false} CountAppend(a: seq<Action>, b: seq<Action>, f: Action -> bool)
    ensures Count(a + b, f) == Count(a, f) + Count(b, f)
  {
    if b == [] {
      assert a + b == a;
    } else {
      CountAppend(a, b[..|b| - 1], f);
      assert (a + b)[..|a + b| - 1] == a + b[..|b| - 1];
    }
  }

  lemma CountOne(a: Action, f: Action -> bool)
    ensures Count([a], f) == if f(a) then 1 else 0
  {
    assert [a][..0] == [];
  }

  predicate IsUp(a: Action) { a.Up? }

  predicate IsDown(a: Action) { a.Down? }

  predicate IsControl(a: Action, protocol: u16, code: byte) {
    a.Send? && |a.packet| >= 3 && a.packet[..2] == Be16(protocol) && a.packet[2] == code
  }

  predicate IsLcpRequest(a: Action) { IsControl(a, LCP_PROTOCOL, CONF_REQ) }

  predicate IsIpcpRequest(a: Action) { IsControl(a, IPCP_PROTOCOL, CONF_REQ) }

  predicate IsLcpTerminate(a: Action) { IsControl(a, LCP_PROTOCOL, TERM_REQ) }

  // ---- one automaton --------------------------------------------------------------

  predicate Active(s: State) { s.Negotiating() || s.Opened? }

  /** How many Configure-Requests an automaton can still send, and how many
      Terminate-Requests. */
  function RequestsLeft(f: Fsm): nat {
    (if f.state.Negotiating() then f.retransmits else 0)
    + (if f.nakLoops < 2 * MAX_NAK_LOOPS then 2 * MAX_NAK_LOOPS - f.nakLoops else 0)
  }

  function TerminatesLeft(f: Fsm): nat {
    if Active(f.state) then 1 + MAX_TERMINATE else if f.state.Closing? then f.retransmits else 0
  }

  /** Timer expiries until a negotiation is over. */
  function ExpiriesLeft(f: Fsm): nat {
    if f.state.Negotiating() then f.retransmits + 1 else 0
  }

  /** What a packet or an expiry does to the state. */
  predicate Moves(f: Fsm, d: Done) {
    && d.fsm.layer.Lcp? == f.layer.Lcp?
    && (forall a :: a in d.actions ==> a.Send?)
    && (d.outcome == Some(LayerUp) <==> d.fsm.state.Opened? && !f.state.Opened?)
    && (d.fsm.state.Opened? ==> Active(f.state))
    && (d.fsm.state.Negotiating() ==> f.state.Negotiating())
    && (d.fsm.state.Closing? ==> f.state.Closing?)
    && (d.fsm.state.Initial? ==> f.state.Initial?)
    && (Active(f.state) && !Active(d.fsm.state) ==> d.outcome.Some? && d.outcome.value.LayerDown?)
    && (f.state.Initial? || f.state.Closed? ==> d.fsm.state.Initial? || d.fsm.state.Closed?)
    && (d.fsm.state.Negotiating() || d.fsm.state.Closing? ==> f.timer.Some? ==> d.fsm.timer.Some?)
  }

  predicate EndsClosed(d: Done) {
    d.outcome.Some? && d.outcome.value.LayerDown? ==> d.fsm.state.Closed?
  }

  /** One packet, of the layer's protocol. */
  predicate SendsOwn(f: Fsm, actions: seq<Action>) {
    |actions| == 1 && actions[0].Send? && |actions[0].packet| >= 3 && actions[0].packet[..2] == Be16(f.layer.Protocol())
  }

  /** And this is its code. */
  predicate SendsCode(f: Fsm, actions: seq<Action>, code: byte) {
    |actions| == 1 && IsControl(actions[0], f.layer.Protocol(), code)
  }

  /** What it costs: a Configure-Request or a Terminate-Request of the ones
      left, if it sends one. */
  predicate Spends(f: Fsm, d: Done) {
    && (d.actions == [] || SendsOwn(f, d.actions))
    && RequestsLeft(d.fsm) <= RequestsLeft(f)
    && TerminatesLeft(d.fsm) <= TerminatesLeft(f)
    && (SendsCode(f, d.actions, CONF_REQ) ==> RequestsLeft(d.fsm) < RequestsLeft(f))
    && (SendsCode(f, d.actions, TERM_REQ) ==> TerminatesLeft(d.fsm) < TerminatesLeft(f))
    && ExpiriesLeft(d.fsm) <= ExpiriesLeft(f)
  }

  lemma PacketReads(layer: Layer, code: byte, id: byte, payload: bytes)
    requires |payload| + 4 < 0x1_0000
    ensures var x := Packet(layer, code, id, payload);
            |x| == 6 + |payload| && x[..2] == Be16(layer.Protocol()) && x[2] == code && x[3] == id && x[6..] == payload
  {
  }

  lemma OnePacket(f: Fsm, layer: Layer, code: byte, id: byte, payload: bytes)
    requires |payload| + 4 < 0x1_0000 && layer.Lcp? == f.layer.Lcp?
    ensures SendsOwn(f, [Send(Packet(layer, code, id, payload))])
    ensures forall c: byte :: SendsCode(f, [Send(Packet(layer, code, id, payload))], c) <==> c == code
  {
    PacketReads(layer, code, id, payload);
  }

  lemma HandleMoves(f: Fsm, code: byte, id: byte, data: bytes, now: int, randoms: nat -> u32)
    requires |data| + 4 < 0x1_0000
    ensures Moves(f, Handle(f, code, id, data, now, randoms)) && EndsClosed(Handle(f, code, id, data, now, randoms))
  {
    HandleKeepsLayer(f, code, id, data, now, randoms);
  }

  lemma NakSpends(f: Fsm, code: byte, id: byte, data: bytes, now: int)
    requires !f.state.Closing?
    ensures Spends(f, OnNakOrRej(f, code, id, data, now))
  {
    if ParseAll(data).Some? {
      var layer := Accept(f.layer, ParseAll(data).value, code == CONF_REJ || f.nakLoops + 1 > MAX_NAK_LOOPS);
      AcceptKeepsLayer(f.layer, ParseAll(data).value, code == CONF_REJ || f.nakLoops + 1 > MAX_NAK_LOOPS);
      RequestFits(layer);
      OnePacket(f, layer, CONF_REQ, Next(f.id), EncodeAll(layer.Request()));
    }
  }

  lemma RequestSendsAnswer(f: Fsm, id: byte, data: bytes, randoms: nat -> u32)
    requires |data| + 4 < 0x1_0000
    ensures var actions := OnRequest(f, id, data, randoms).actions;
            (actions == [] || SendsOwn(f, actions)) && !SendsCode(f, actions, CONF_REQ) && !SendsCode(f, actions, TERM_REQ)
  {
    if ParseAll(data).Some? {
      AnswerFits(f.layer, data, randoms);
      var (code, answer) := Answer(f.layer, ParseAll(data).value, randoms);
      OnePacket(f, f.layer, CONF_ACK, id, data);
      OnePacket(f, f.layer, code, id, EncodeAll(answer));
    }
  }

  lemma RequestKeepsBudget(f: Fsm, id: byte, data: bytes, randoms: nat -> u32)
    requires !f.state.Closing? && |data| + 4 < 0x1_0000
    ensures var g := OnRequest(f, id, data, randoms).fsm;
            && g.nakLoops == f.nakLoops && g.retransmits == f.retransmits && !g.state.Closing?
            && (g.state.Negotiating() ==> f.state.Negotiating()) && (Active(g.state) ==> Active(f.state))
  {
  }

  lemma RequestSpends(f: Fsm, id: byte, data: bytes, randoms: nat -> u32)
    requires !f.state.Closing? && |data| + 4 < 0x1_0000
    ensures Spends(f, OnRequest(f, id, data, randoms))
  {
    RequestSendsAnswer(f, id, data, randoms);
    RequestKeepsBudget(f, id, data, randoms);
  }

  lemma OtherSpends(f: Fsm, code: byte, id: byte, data: bytes, now: int, randoms: nat -> u32)
    requires |data| + 4 < 0x1_0000 && code !in {CONF_REQ, CONF_NAK, CONF_REJ}
    ensures Spends(f, Handle(f, code, id, data, now, randoms))
  {
    OnePacket(f, f.layer, TERM_ACK, id, []);
    OnePacket(f, f.layer, CODE_REJ, Next(f.id), Truncated([code, id] + Be16(|data| + 4) + data, RejectLimit(f)));
  }

  lemma HandleSpends(f: Fsm, code: byte, id: byte, data: bytes, now: int, randoms: nat -> u32)
    requires |data| + 4 < 0x1_0000
    ensures Spends(f, Handle(f, code, id, data, now, randoms))
  {
    if f.state.Closing? && code != TERM_ACK && code != TERM_REQ {
    } else if code == CONF_REQ {
      RequestSpends(f, id, data, randoms);
    } else if code == CONF_NAK || code == CONF_REJ {
      NakSpends(f, code, id, data, now);
    } else {
      OtherSpends(f, code, id, data, now, randoms);
    }
  }

  lemma LcpHandleMoves(f: Fsm, code: byte, id: byte, data: bytes, now: int, randoms: nat -> u32)
    requires f.layer.Lcp? && |data| + 4 < 0x1_0000
    ensures Moves(f, LcpHandle(f, code, id, data, now, randoms))
    ensures Spends(f, LcpHandle(f, code, id, data, now, randoms))
  {
    HandleMoves(f, code, id, data, now, randoms);
    HandleSpends(f, code, id, data, now, randoms);
    OnePacket(f, f.layer, ECHO_REPLY, id, Be32(f.layer.magic) + Dropped(data, 4));
  }

  lemma ExpireMoves(f: Fsm, now: int)
    ensures Moves(f, Expire(f, now)) && EndsClosed(Expire(f, now)) && Spends(f, Expire(f, now))
    ensures Expire(f, now).outcome != Some(LayerUp)
    ensures f.timer.None? ==> Expire(f, now) == Done(f, [], None)
    ensures Due(f, now) && f.state.Negotiating() ==> ExpiriesLeft(Expire(f, now).fsm) < ExpiriesLeft(f)
  {
    RequestFits(f.layer);
    OnePacket(f, f.layer, CONF_REQ, f.id, EncodeAll(f.layer.Request()));
    OnePacket(f, f.layer, TERM_REQ, Next(f.id), []);
  }

  // ---- the two layers ---------------------------------------------------------------

  predicate Idle(f: Fsm) { (f.state.Initial? || f.state.Closed?) && f.timer.None? }

  /** How the layers stack, and that what is not over has a timer. */
  predicate Stacked(p: Link) {
    && Typed(p)
    && (p.lcp.state.Opened? ==> Active(p.ipcp.state))
    && (p.lcp.state.Negotiating() || p.lcp.state.Initial? ==> Idle(p.ipcp))
    && (p.lcp.state.Negotiating() || p.lcp.state.Closing? ==> p.lcp.timer.Some?)
    && (p.lcp.state.Opened? && p.ipcp.state.Negotiating() ==> p.ipcp.timer.Some?)
    && (p.IsUp() ==> p.lcp.state.Opened? || (p.lcp.state.Closed? && p.down))
  }

  /** Not opened yet. */
  predicate Unopened(p: Link) {
    Typed(p) && (p.lcp.state.Initial? || p.lcp.state.Closed?) && Idle(p.ipcp)
  }

  /** How often the link can still come up. */
  function UpsLeft(p: Link): nat {
    if p.lcp.state.Negotiating() || (p.lcp.state.Opened? && p.ipcp.state.Negotiating()) then 1 else 0
  }

  function Reported(p: Link): nat { if p.down then 1 else 0 }

  /** An Up comes with LCP open. */
  predicate GoodUp(p: Link, a: Action) {
    a.Up? ==> p.lcp.state.Opened? && p.ipcp.state.Opened?
  }

  /** What a step other than an open does. */
  ghost predicate Advances(p: Link, q: Link, actions: seq<Action>) {
    && Stacked(q)
    && (Unopened(p) ==> Unopened(q))
    && Count(actions, IsUp) + UpsLeft(q) <= UpsLeft(p)
    && (q.ipcp.state.Opened? ==> p.ipcp.state.Opened? || Count(actions, IsUp) > 0)
    && Count(actions, IsDown) + Reported(p) == Reported(q)
    && (forall a :: a in actions && a.Deliver? ==> p.ipcp.state.Opened?)
    && (forall a :: a in actions ==> GoodUp(q, a))
  }

  /** Only packets to the peer: no Up, no Down. */
  lemma {:induction false} SendsCountNothing(actions: seq<Action>)
    requires forall a :: a in actions ==> a.Send?
    ensures Count(actions, IsUp) == 0 && Count(actions, IsDown) == 0
  {
    if actions != [] {
      assert actions[|actions| - 1] in actions;
      SendsCountNothing(actions[..|actions| - 1]);
    }
  }

  lemma CountThen(before: seq<Action>, more: seq<Action>)
    requires forall a :: a in before ==> a.Send?
    ensures Count(before + more, IsUp) == Count(more, IsUp)
    ensures Count(before + more, IsDown) == Count(more, IsDown)
    ensures forall a :: a in before + more ==> a in more || a.Send?
  {
    SendsCountNothing(before);
    CountAppend(before, more, IsUp);
    CountAppend(before, more, IsDown);
  }

  /** Packets sent before change nothing in it. */
  lemma SendsFirst(p: Link, q: Link, before: seq<Action>, more: seq<Action>)
    requires Advances(p, q, more) && forall a :: a in before ==> a.Send?
    ensures Advances(p, q, before + more)
  {
    CountThen(before, more);
  }

  lemma ReportAdvances(p: Link, reason: Reason)
    ensures var (q, actions) := ReportDown(p, reason);
            && q == p.(down := true)
            && Count(actions, IsUp) == 0 && Count(actions, IsDown) + Reported(p) == 1
            && (forall a :: a in actions ==> a.Down?)
  {
    CountOne(Down(reason), IsUp);
    CountOne(Down(reason), IsDown);
  }

  lemma LcpClosesAdvances(p: Link, now: int, reason: Reason)
    requires Typed(p)
    ensures var (q, actions) := CloseLcp(p, now);
            && Typed(q) && q.ipcp == p.ipcp && q.down == p.down
            && (forall a :: a in actions ==> a.Send?)
            && !Active(q.lcp.state)
            && (q.lcp.state.Closing? && !p.lcp.state.Closing? ==> q.lcp.timer.Some?)
            && (p.lcp.state.Closing? || p.lcp.state.Closed? || p.lcp.state.Initial? ==> q.lcp == p.lcp)
            && (Active(p.lcp.state) ==> q.lcp.state.Closing?)
  {
  }

  lemma LcpChanges(p: Link, d: Done, now: int)
    requires Stacked(p) && Moves(p.lcp, d) && d.outcome.Some?
    ensures d.fsm.layer.Lcp?
    ensures var (q, more) := OnLcp(p.(lcp := d.fsm), d.outcome.value, now); Advances(p, q, more)
  {
    if d.outcome.value.LayerUp? {
      SendsCountNothing(StartIpcp(p.(lcp := d.fsm), now).1);
    } else {
      ReportAdvances(p.(lcp := d.fsm), d.outcome.value.reason);
    }
  }

  lemma AfterLcpAdvances(p: Link, d: Done, now: int)
    requires Stacked(p) && Moves(p.lcp, d)
    ensures d.fsm.layer.Lcp?
    ensures var (q, actions) := AfterLcp(p, d, now); Advances(p, q, actions)
  {
    if d.outcome.None? {
      SendsCountNothing(d.actions);
    } else {
      LcpChanges(p, d, now);
      var (q, more) := OnLcp(p.(lcp := d.fsm), d.outcome.value, now);
      SendsFirst(p, q, d.actions, more);
    }
  }

  lemma IpcpUpAdvances(p: Link, now: int)
    requires Typed(p) && p.lcp.state.Opened? && p.ipcp.state.Opened?
    ensures var (q, actions) := OnIpcp(p, LayerUp, now);
            && Stacked(q) && UpsLeft(q) == 0 && Count(actions, IsUp) <= 1
            && (q.ipcp.state.Opened? ==> Count(actions, IsUp) == 1)
            && Count(actions, IsDown) + Reported(p) == Reported(q)
            && (forall a :: a in actions ==> !a.Deliver? && GoodUp(q, a))
  {
    if p.ipcp.layer.local == UNSPECIFIED {
      var (q, actions) := CloseLcp(p.(ipcp := p.ipcp.(state := Closed)), now);
      LcpClosesAdvances(p.(ipcp := p.ipcp.(state := Closed)), now, NoAddress);
      ReportAdvances(q, NoAddress);
      CountThen(actions, ReportDown(q, NoAddress).1);
    } else {
      CountOne(Up(AddressesOf(p)), IsUp);
      CountOne(Up(AddressesOf(p)), IsDown);
    }
  }

  lemma IpcpGoesUp(p: Link, d: Done, now: int)
    requires Stacked(p) && Moves(p.ipcp, d) && d.outcome == Some(LayerUp) && p.lcp.state.Opened?
    ensures d.fsm.layer.Ipcp?
    ensures var (q, actions) := AfterIpcp(p, d, now); Advances(p, q, actions)
  {
    var p' := p.(ipcp := d.fsm);
    IpcpUpAdvances(p', now);
    var (q, more) := OnIpcp(p', LayerUp, now);
    assert Advances(p, q, more);
    SendsFirst(p, q, d.actions, more);
  }

  lemma IpcpDownAdvances(p: Link, reason: Reason, now: int)
    requires Typed(p) && (p.lcp.state.Closing? ==> p.lcp.timer.Some?) && p.ipcp.state.Closed?
    requires p.lcp.state.Opened? || p.lcp.state.Closing? || p.lcp.state.Closed?
    ensures var (q, actions) := OnIpcp(p, LayerDown(reason), now);
            && Stacked(q) && UpsLeft(q) == 0 && Count(actions, IsUp) == 0 && q.ipcp == p.ipcp
            && Count(actions, IsDown) + Reported(p) == Reported(q)
            && (forall a :: a in actions ==> !a.Deliver? && !a.Up?)
            && (p.lcp.state.Closed? ==> q.lcp == p.lcp)
  {
    LcpClosesAdvances(p, now, reason);
    var (q, actions) := if p.lcp.state.Opened? then CloseLcp(p, now) else (p, []);
    ReportAdvances(q, reason);
    CountThen(actions, ReportDown(q, reason).1);
  }

  lemma IpcpEnds(p: Link, f: Fsm, reason: Reason, now: int)
    requires Stacked(p) && f.layer.Ipcp? && f.state.Closed?
    requires !p.lcp.state.Negotiating() && !p.lcp.state.Initial? && !Unopened(p)
    ensures var (q, more) := OnIpcp(p.(ipcp := f), LayerDown(reason), now); Advances(p, q, more)
  {
    IpcpDownAdvances(p.(ipcp := f), reason, now);
  }

  lemma IpcpGoesDown(p: Link, d: Done, now: int)
    requires Stacked(p) && Moves(p.ipcp, d) && d.outcome.Some? && d.outcome.value.LayerDown? && EndsClosed(d)
    requires !p.lcp.state.Negotiating() && !p.lcp.state.Initial? && !Unopened(p)
    ensures d.fsm.layer.Ipcp?
    ensures var (q, actions) := AfterIpcp(p, d, now); Advances(p, q, actions)
  {
    IpcpEnds(p, d.fsm, d.outcome.value.reason, now);
    var (q, more) := OnIpcp(p.(ipcp := d.fsm), d.outcome.value, now);
    SendsFirst(p, q, d.actions, more);
  }

  lemma AfterIpcpAdvances(p: Link, d: Done, now: int)
    requires Stacked(p) && Moves(p.ipcp, d) && EndsClosed(d)
    requires d.outcome == Some(LayerUp) ==> p.lcp.state.Opened?
    requires p.lcp.state.Negotiating() || p.lcp.state.Initial? || Unopened(p) ==> d == Done(p.ipcp, [], None)
    ensures d.fsm.layer.Ipcp?
    ensures var (q, actions) := AfterIpcp(p, d, now); Advances(p, q, actions)
  {
    if d.outcome.None? {
      SendsCountNothing(d.actions);
    } else if d.outcome.value.LayerUp? {
      IpcpGoesUp(p, d, now);
    } else {
      IpcpGoesDown(p, d, now);
    }
  }

  lemma {:induction false} NoUps(a: seq<Action>)
    requires forall x :: x in a ==> !x.Up?
    ensures Count(a, IsUp) == 0
  {
    if a != [] {
      assert a[|a| - 1] in a;
      NoUps(a[..|a| - 1]);
    }
  }

  lemma Transitive(p: Link, q: Link, r: Link, a: seq<Action>, b: seq<Action>)
    requires Advances(p, q, a) && Advances(q, r, b)
    requires forall x :: x in a ==> !x.Up?
    ensures Advances(p, r, a + b)
  {
    CountAppend(a, b, IsUp);
    CountAppend(a, b, IsDown);
    NoUps(a);
  }

  lemma AfterLcpNoUp(p: Link, d: Done, now: int)
    requires Typed(p) && Moves(p.lcp, d)
    ensures d.fsm.layer.Lcp?
    ensures forall x :: x in AfterLcp(p, d, now).1 ==> !x.Up?
    ensures AfterLcp(p, d, now).0.lcp == d.fsm
    ensures d.outcome != Some(LayerUp) ==> AfterLcp(p, d, now).0.ipcp == p.ipcp
  {
  }

  lemma TimeoutAdvances(p: Link, now: int)
    requires Stacked(p)
    ensures Advances(p, Timeout(p, now).0, Timeout(p, now).1)
  {
    var d := Expire(p.lcp, now);
    ExpireMoves(p.lcp, now);
    AfterLcpAdvances(p, d, now);
    AfterLcpNoUp(p, d, now);
    var (q, actions) := AfterLcp(p, d, now);
    ExpireMoves(q.ipcp, now);
    AfterIpcpAdvances(q, Expire(q.ipcp, now), now);
    var (r, more) := AfterIpcp(q, Expire(q.ipcp, now), now);
    Transitive(p, q, r, actions, more);
  }

  lemma CloseAdvances(p: Link, now: int)
    requires Stacked(p)
    ensures Advances(p, CloseLink(p, now).0, CloseLink(p, now).1)
  {
    var p' := p.(ipcp := p.ipcp.(state := Closed, timer := None));
    LcpClosesAdvances(p', now, LinkClosed);
    var (q, actions) := CloseLcp(p', now);
    if Finish(p'.lcp, now).1 {
      SendsCountNothing(actions);
    } else {
      ReportAdvances(q, LinkClosed);
      var (r, more) := ReportDown(q, LinkClosed);
      assert Advances(p, r, more);
      SendsFirst(p, r, actions, more);
    }
  }

  lemma ControlAdvances(p: Link, toLcp: bool, payload: bytes, now: int, randoms: nat -> u32)
    requires Stacked(p) && (toLcp || p.lcp.state.Opened?)
    ensures Advances(p, Control(p, toLcp, payload, now, randoms).0, Control(p, toLcp, payload, now, randoms).1)
  {
    match ParseControl(payload)
    case None =>
    case Some((code, id, data)) =>
      if toLcp {
        LcpHandleMoves(p.lcp, code, id, data, now, randoms);
        AfterLcpAdvances(p, LcpHandle(p.lcp, code, id, data, now, randoms), now);
      } else {
        HandleMoves(p.ipcp, code, id, data, now, randoms);
        AfterIpcpAdvances(p, Handle(p.ipcp, code, id, data, now, randoms), now);
      }
  }

  lemma RejectAdvances(p: Link, packet: bytes)
    requires Stacked(p) && p.lcp.state.Opened?
    ensures Advances(p, p.(lcp := p.lcp.(id := Next(p.lcp.id))),
                     [Send(Packet(p.lcp.layer, PROTO_REJ, Next(p.lcp.id), Truncated(packet, RejectLimit(p.lcp))))])
  {
    SendsCountNothing([Send(Packet(p.lcp.layer, PROTO_REJ, Next(p.lcp.id), Truncated(packet, RejectLimit(p.lcp))))]);
  }

  lemma DeliverAdvances(p: Link, payload: bytes)
    requires Stacked(p)
    ensures Advances(p, p, if p.IsUp() then [Deliver(payload)] else []) && Advances(p, p, [])
  {
    CountOne(Deliver(payload), IsUp);
    CountOne(Deliver(payload), IsDown);
  }

  lemma InputAdvances(p: Link, packet: bytes, now: int, randoms: nat -> u32)
    requires Stacked(p)
    ensures Advances(p, Input(p, packet, now, randoms).0, Input(p, packet, now, randoms).1)
  {
    if |packet| >= 2 {
      ControlAdvances(p, true, packet[2..], now, randoms);
      if p.lcp.state.Opened? {
        ControlAdvances(p, false, packet[2..], now, randoms);
        RejectAdvances(p, packet);
      }
      DeliverAdvances(p, packet[2..]);
    }
  }

  lemma StepAdvances(p: Link, ev: Event)
    requires Stacked(p) && !ev.Opens?
    ensures Advances(p, Step(p, ev).0, Step(p, ev).1)
  {
    match ev
    case Closes(now) => CloseAdvances(p, now);
    case Expires(now) => TimeoutAdvances(p, now);
    case Receives(packet, now, randoms) => InputAdvances(p, packet, now, randoms);
  }

  lemma OpenAdvances(p: Link, now: int)
    requires Stacked(p) && Unopened(p)
    ensures var (q, actions) := OpenLink(p, now);
            && Stacked(q) && q.lcp.state.ReqSent? && q.ipcp == p.ipcp && q.down == p.down
            && (forall a :: a in actions ==> a.Send?)
  {
  }
}
