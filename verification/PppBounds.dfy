/** How much a PPP link sends and how long it negotiates, over every run. */
module PppBounds {
  import opened Bytes
  import opened PppOptions
  import opened PppFsm
  import opened PppLink
  import opened PppRuns

  // ---- what steps cost ------------------------------------------------------------

  /** How many Configure-Requests IPCP can still send until the link is opened again. */
  function IpcpRequestsLeft(p: Link): nat {
    if Unopened(p) then 0
    else if p.lcp.state.Negotiating() then 1 + IPCP_MAX_CONFIGURE + 2 * MAX_NAK_LOOPS
    else RequestsLeft(p.ipcp)
  }

  function IpcpExpiriesLeft(p: Link): nat {
    if p.lcp.state.Negotiating() then IPCP_MAX_CONFIGURE + 1 else ExpiriesLeft(p.ipcp)
  }

  /** What a link has only so much of. */
  datatype Tally = LcpRequests | LcpTerminates | IpcpRequests | LcpExpiries | IpcpExpiries

  function Left(k: Tally, p: Link): nat {
    match k
    case LcpRequests => RequestsLeft(p.lcp)
    case LcpTerminates => TerminatesLeft(p.lcp)
    case IpcpRequests => IpcpRequestsLeft(p)
    case LcpExpiries => ExpiriesLeft(p.lcp)
    case IpcpExpiries => IpcpExpiriesLeft(p)
  }

  function Spent(k: Tally, actions: seq<Action>): nat {
    match k
    case LcpRequests => Count(actions, IsLcpRequest)
    case LcpTerminates => Count(actions, IsLcpTerminate)
    case IpcpRequests => Count(actions, IsIpcpRequest)
    case _ => 0
  }

  ghost predicate Costs(p: Link, q: Link, actions: seq<Action>) {
    forall k: Tally :: Spent(k, actions) + Left(k, q) <= Left(k, p)
  }

  lemma CostsTell(p: Link, q: Link, actions: seq<Action>)
    requires Costs(p, q, actions)
    ensures Count(actions, IsLcpRequest) + RequestsLeft(q.lcp) <= RequestsLeft(p.lcp)
    ensures Count(actions, IsLcpTerminate) + TerminatesLeft(q.lcp) <= TerminatesLeft(p.lcp)
    ensures Count(actions, IsIpcpRequest) + IpcpRequestsLeft(q) <= IpcpRequestsLeft(p)
    ensures Unopened(p) ==> Count(actions, IsIpcpRequest) == 0
    ensures ExpiriesLeft(q.lcp) <= ExpiriesLeft(p.lcp) && IpcpExpiriesLeft(q) <= IpcpExpiriesLeft(p)
  {
    assert Left(LcpRequests, q) <= Left(LcpRequests, p) && Left(LcpTerminates, q) <= Left(LcpTerminates, p);
    assert Left(IpcpRequests, q) <= Left(IpcpRequests, p);
    assert Left(LcpExpiries, q) <= Left(LcpExpiries, p) && Left(IpcpExpiries, q) <= Left(IpcpExpiries, p);
  }

  predicate Counts(actions: seq<Action>, lcpRequests: nat, terminates: nat, ipcpRequests: nat) {
    && Count(actions, IsLcpRequest) == lcpRequests
    && Count(actions, IsLcpTerminate) == terminates
    && Count(actions, IsIpcpRequest) == ipcpRequests
  }

  lemma OwnCounts(f: Fsm, actions: seq<Action>)
    requires actions == [] || SendsOwn(f, actions)
    ensures f.layer.Lcp? ==>
              Counts(actions, if SendsCode(f, actions, CONF_REQ) then 1 else 0, if SendsCode(f, actions, TERM_REQ) then 1 else 0, 0)
    ensures f.layer.Ipcp? ==> Counts(actions, 0, 0, if SendsCode(f, actions, CONF_REQ) then 1 else 0)
  {
    if actions != [] {
      assert actions == [actions[0]];
      CountOne(actions[0], IsLcpRequest);
      CountOne(actions[0], IsLcpTerminate);
      CountOne(actions[0], IsIpcpRequest);
    }
  }

  lemma NoPacketCounts(actions: seq<Action>)
    requires |actions| <= 1 && forall a :: a in actions ==> !a.Send?
    ensures Counts(actions, 0, 0, 0)
  {
    if actions != [] {
      assert actions == [actions[0]];
      CountOne(actions[0], IsLcpRequest);
      CountOne(actions[0], IsLcpTerminate);
      CountOne(actions[0], IsIpcpRequest);
    }
  }

  /** What a change of LCP costs, when IPCP does nothing. */
  lemma LcpCosts(p: Link, q: Link, actions: seq<Action>)
    requires Typed(p) && (actions == [] || SendsOwn(p.lcp, actions))
    requires q.lcp.layer.Lcp? && q.ipcp == p.ipcp && Stacked(p) && (Unopened(p) ==> Unopened(q))
    requires Spends(p.lcp, Done(q.lcp, actions, None))
    ensures Costs(p, q, actions)
  {
    OwnCounts(p.lcp, actions);
  }

  lemma CostsThen(p: Link, q: Link, r: Link, a: seq<Action>, b: seq<Action>)
    requires Costs(p, q, a) && Costs(q, r, b)
    ensures Costs(p, r, a + b)
  {
    CountAppend(a, b, IsLcpRequest);
    CountAppend(a, b, IsLcpTerminate);
    CountAppend(a, b, IsIpcpRequest);
  }

  lemma Free(p: Link, q: Link, actions: seq<Action>)
    requires Typed(p) && Typed(q) && |actions| <= 1 && forall a :: a in actions ==> !a.Send?
    requires q.lcp == p.lcp && q.ipcp.nakLoops == p.ipcp.nakLoops && q.ipcp.retransmits == p.ipcp.retransmits
    requires (q.ipcp.state.Negotiating() ==> p.ipcp.state.Negotiating()) && (Unopened(p) ==> Unopened(q))
    ensures Costs(p, q, actions)
  {
    NoPacketCounts(actions);
  }

  lemma CloseLcpCosts(p: Link, now: int)
    requires Typed(p) && (p.lcp.state.Negotiating() ==> !p.ipcp.state.Negotiating())
    ensures var (q, actions) := CloseLcp(p, now);
            && (actions == [] || SendsOwn(p.lcp, actions)) && Spends(p.lcp, Done(q.lcp, actions, None))
            && Costs(p, q, actions)
  {
    OnePacket(p.lcp, p.lcp.layer, TERM_REQ, Next(p.lcp.id), []);
    var (q, actions) := CloseLcp(p, now);
    OwnCounts(p.lcp, actions);
  }

  lemma LcpUpCosts(p: Link, d: Done, now: int)
    requires Stacked(p) && Moves(p.lcp, d) && Spends(p.lcp, d) && d.outcome == Some(LayerUp)
    ensures d.fsm.layer.Lcp?
    ensures var (q, actions) := AfterLcp(p, d, now); Costs(p, q, actions)
  {
    OwnCounts(p.lcp, d.actions);
    var p' := p.(lcp := d.fsm);
    var (q, more) := StartIpcp(p', now);
    RequestFits(q.ipcp.layer);
    OnePacket(q.ipcp, q.ipcp.layer, CONF_REQ, q.ipcp.id, EncodeAll(q.ipcp.layer.Request()));
    OwnCounts(q.ipcp, more);
    CountAppend(d.actions, more, IsLcpRequest);
    CountAppend(d.actions, more, IsLcpTerminate);
    CountAppend(d.actions, more, IsIpcpRequest);
  }

  lemma AfterLcpCosts(p: Link, d: Done, now: int)
    requires Stacked(p) && Moves(p.lcp, d) && Spends(p.lcp, d)
    ensures d.fsm.layer.Lcp?
    ensures var (q, actions) := AfterLcp(p, d, now); Costs(p, q, actions)
  {
    var p' := p.(lcp := d.fsm);
    OwnCounts(p.lcp, d.actions);
    if d.outcome.Some? && d.outcome.value.LayerUp? {
      LcpUpCosts(p, d, now);
    } else {
      LcpCosts(p, p', d.actions);
      if d.outcome.Some? {
        var (q, more) := ReportDown(p', d.outcome.value.reason);
        Free(p', q, more);
        CostsThen(p, p', q, d.actions, more);
      }
    }
  }

  lemma IpcpCosts(p: Link, d: Done)
    requires Stacked(p) && Moves(p.ipcp, d) && Spends(p.ipcp, d)
    requires p.lcp.state.Negotiating() || Unopened(p) ==> d == Done(p.ipcp, [], None)
    ensures Costs(p, p.(ipcp := d.fsm), d.actions)
  {
    OwnCounts(p.ipcp, d.actions);
  }

  lemma IpcpThen(p: Link, d: Done, after: (Link, seq<Action>), now: int)
    requires Typed(p) && d.fsm.layer.Ipcp? && d.outcome.Some? && after == OnIpcp(p.(ipcp := d.fsm), d.outcome.value, now)
    requires Costs(p, p.(ipcp := d.fsm), d.actions) && Costs(p.(ipcp := d.fsm), after.0, after.1)
    ensures Costs(p, AfterIpcp(p, d, now).0, AfterIpcp(p, d, now).1)
  {
    CostsThen(p, p.(ipcp := d.fsm), after.0, d.actions, after.1);
    assert AfterIpcp(p, d, now) == (after.0, d.actions + after.1);
  }

  lemma ReportCosts(p: Link, q: Link, actions: seq<Action>, reason: Reason)
    requires Typed(q) && Costs(p, q, actions)
    ensures Costs(p, ReportDown(q, reason).0, actions + ReportDown(q, reason).1)
  {
    Free(q, ReportDown(q, reason).0, ReportDown(q, reason).1);
    CostsThen(p, q, ReportDown(q, reason).0, actions, ReportDown(q, reason).1);
  }

  lemma OnIpcpCosts(p: Link, outcome: Outcome, now: int)
    requires Typed(p) && (p.lcp.state.Negotiating() ==> !p.ipcp.state.Negotiating())
    ensures var (q, actions) := OnIpcp(p, outcome, now); Costs(p, q, actions)
  {
    match outcome
    case LayerUp =>
      if p.ipcp.layer.local == UNSPECIFIED {
        var p' := p.(ipcp := p.ipcp.(state := Closed));
        Free(p, p', []);
        CloseLcpCosts(p', now);
        var (q, actions) := CloseLcp(p', now);
        ReportCosts(p', q, actions, NoAddress);
        CostsThen(p, p', ReportDown(q, NoAddress).0, [], actions + ReportDown(q, NoAddress).1);
        assert [] + (actions + ReportDown(q, NoAddress).1) == actions + ReportDown(q, NoAddress).1;
      } else {
        Free(p, p, [Up(AddressesOf(p))]);
      }
    case LayerDown(reason) =>
      if p.lcp.state.Opened? {
        CloseLcpCosts(p, now);
        ReportCosts(p, CloseLcp(p, now).0, CloseLcp(p, now).1, reason);
      } else {
        var (q, more) := ReportDown(p, reason);
        Free(p, q, more);
        assert [] + more == more;
      }
  }

  lemma AfterIpcpCosts(p: Link, d: Done, now: int)
    requires Stacked(p) && Moves(p.ipcp, d) && Spends(p.ipcp, d)
    requires p.lcp.state.Negotiating() || Unopened(p) ==> d == Done(p.ipcp, [], None)
    ensures d.fsm.layer.Ipcp?
    ensures var (q, actions) := AfterIpcp(p, d, now); Costs(p, q, actions)
  {
    IpcpCosts(p, d);
    if d.outcome.Some? {
      OnIpcpCosts(p.(ipcp := d.fsm), d.outcome.value, now);
      IpcpThen(p, d, OnIpcp(p.(ipcp := d.fsm), d.outcome.value, now), now);
    }
  }

  // ---- the steps --------------------------------------------------------------------

  lemma TimeoutCosts(p: Link, now: int)
    requires Stacked(p)
    ensures Costs(p, Timeout(p, now).0, Timeout(p, now).1)
  {
    var d := Expire(p.lcp, now);
    ExpireMoves(p.lcp, now);
    AfterLcpAdvances(p, d, now);
    AfterLcpNoUp(p, d, now);
    AfterLcpCosts(p, d, now);
    var (q, actions) := AfterLcp(p, d, now);
    var e := Expire(q.ipcp, now);
    ExpireMoves(q.ipcp, now);
    AfterIpcpCosts(q, e, now);
    var (r, more) := AfterIpcp(q, e, now);
    CostsThen(p, q, r, actions, more);
  }

  /** The restart timer of a layer fires while it negotiates. */
  function Expiry(f: Fsm, ev: Event): nat {
    if ev.Expires? && Due(f, ev.now) && f.state.Negotiating() then 1 else 0
  }

  lemma AfterIpcpExpiries(p: Link, d: Done, now: int)
    requires Typed(p) && d.fsm.layer.Ipcp? && d.outcome != Some(LayerUp)
    ensures AfterIpcp(p, d, now).0.ipcp == d.fsm
    ensures AfterIpcp(p, d, now).0.lcp.state.Negotiating() ==> p.lcp.state.Negotiating()
  {
  }

  lemma LcpTimeoutExpiries(p: Link, now: int)
    requires Stacked(p)
    ensures ExpiriesLeft(Timeout(p, now).0.lcp) + Expiry(p.lcp, Expires(now)) <= ExpiriesLeft(p.lcp)
  {
  }

  lemma IpcpTimeoutExpiries(p: Link, now: int)
    requires Stacked(p)
    ensures IpcpExpiriesLeft(Timeout(p, now).0) + Expiry(p.ipcp, Expires(now)) <= IpcpExpiriesLeft(p)
  {
    var d := Expire(p.lcp, now);
    ExpireMoves(p.lcp, now);
    AfterLcpAdvances(p, d, now);
    AfterLcpNoUp(p, d, now);
    var q := AfterLcp(p, d, now).0;
    ExpireMoves(q.ipcp, now);
    AfterIpcpExpiries(q, Expire(q.ipcp, now), now);
  }

  lemma CloseCosts(p: Link, now: int)
    requires Stacked(p)
    ensures Costs(p, CloseLink(p, now).0, CloseLink(p, now).1)
  {
    var p' := p.(ipcp := p.ipcp.(state := Closed, timer := None));
    Free(p, p', []);
    CloseLcpCosts(p', now);
    ReportCosts(p', CloseLcp(p', now).0, CloseLcp(p', now).1, LinkClosed);
    var (r, sent) := CloseLink(p, now);
    CostsThen(p, p', r, [], sent);
    assert [] + sent == sent;
  }

  lemma ControlCosts(p: Link, toLcp: bool, payload: bytes, now: int, randoms: nat -> u32)
    requires Stacked(p) && (toLcp || p.lcp.state.Opened?)
    ensures Costs(p, Control(p, toLcp, payload, now, randoms).0, Control(p, toLcp, payload, now, randoms).1)
  {
    match ParseControl(payload)
    case None => Free(p, p, []);
    case Some((code, id, data)) =>
      if toLcp {
        LcpHandleMoves(p.lcp, code, id, data, now, randoms);
        AfterLcpCosts(p, LcpHandle(p.lcp, code, id, data, now, randoms), now);
      } else {
        HandleMoves(p.ipcp, code, id, data, now, randoms);
        HandleSpends(p.ipcp, code, id, data, now, randoms);
        AfterIpcpCosts(p, Handle(p.ipcp, code, id, data, now, randoms), now);
      }
  }

  lemma InputCosts(p: Link, packet: bytes, now: int, randoms: nat -> u32)
    requires Stacked(p)
    ensures Costs(p, Input(p, packet, now, randoms).0, Input(p, packet, now, randoms).1)
  {
    Free(p, p, []);
    if |packet| >= 2 {
      var payload := packet[2..];
      Free(p, p, [Deliver(payload)]);
      ControlCosts(p, true, payload, now, randoms);
      if p.lcp.state.Opened? {
        ControlCosts(p, false, payload, now, randoms);
        OnePacket(p.lcp, p.lcp.layer, PROTO_REJ, Next(p.lcp.id), Truncated(packet, RejectLimit(p.lcp)));
        LcpCosts(p, p.(lcp := p.lcp.(id := Next(p.lcp.id))),
                 [Send(Packet(p.lcp.layer, PROTO_REJ, Next(p.lcp.id), Truncated(packet, RejectLimit(p.lcp))))]);
      }
    }
  }

  lemma StepCosts(p: Link, ev: Event)
    requires Stacked(p) && !ev.Opens?
    ensures Costs(p, Step(p, ev).0, Step(p, ev).1)
  {
    match ev
    case Closes(now) => CloseCosts(p, now);
    case Expires(now) => TimeoutCosts(p, now);
    case Receives(packet, now, randoms) => InputCosts(p, packet, now, randoms);
  }

  // ---- runs ----------------------------------------------------------------------

  /** A run from a new link: all actions, those since the last open, how often
      the link was opened, and how often each layer's timer has expired while
      the layer negotiated since. */
  datatype Trace = Trace(link: Link, log: seq<Action>, recent: seq<Action>, opens: nat, lcpExpiries: nat, ipcpExpiries: nat)

  function Extend(t: Trace, ev: Event): Trace
    requires Typed(t.link)
  {
    var (q, actions) := Step(t.link, ev);
    if ev.Opens? then Trace(q, t.log + actions, actions, t.opens + 1, 0, 0)
    else
      Trace(q, t.log + actions, t.recent + actions, t.opens,
            t.lcpExpiries + Expiry(t.link.lcp, ev), t.ipcpExpiries + Expiry(t.link.ipcp, ev))
  }

  ghost function Run(link: Link, events: seq<Event>): (t: Trace)
    requires Typed(link)
    ensures Typed(t.link)
    decreases |events|
  {
    if events == [] then Trace(link, [], [], 0, 0, 0)
    else Extend(Run(link, events[..|events| - 1]), events[|events| - 1])
  }

  /** After every Deliver's Up. */
  ghost predicate DeliversFollowUps(log: seq<Action>) {
    forall i :: 0 <= i < |log| && log[i].Deliver? ==> exists j :: 0 <= j < i && log[j].Up?
  }

  ghost predicate LayersHold(t: Trace) {
    && Stacked(t.link)
    && (t.opens == 0 ==> Unopened(t.link) && Count(t.log, IsUp) == 0)
    && (t.opens == 1 ==> Count(t.log, IsUp) + UpsLeft(t.link) <= 1)
    && (t.link.ipcp.state.Opened? ==> Count(t.log, IsUp) > 0)
    && Count(t.log, IsDown) == Reported(t.link)
    && DeliversFollowUps(t.log)
  }

  ghost predicate BoundsHold(t: Trace) {
    && (t.opens == 0 ==> Count(t.log, IsIpcpRequest) == 0 && Count(t.log, IsLcpTerminate) == 0)
    && (t.opens == 1 ==>
          && Count(t.recent, IsLcpRequest) + RequestsLeft(t.link.lcp) <= 1 + LCP_MAX_CONFIGURE + 2 * MAX_NAK_LOOPS
          && Count(t.log, IsIpcpRequest) + IpcpRequestsLeft(t.link) <= 1 + IPCP_MAX_CONFIGURE + 2 * MAX_NAK_LOOPS
          && Count(t.log, IsLcpTerminate) + TerminatesLeft(t.link.lcp) <= 1 + MAX_TERMINATE
          && t.lcpExpiries + ExpiriesLeft(t.link.lcp) <= LCP_MAX_CONFIGURE + 1
          && t.ipcpExpiries + IpcpExpiriesLeft(t.link) <= IPCP_MAX_CONFIGURE + 1)
  }

  function OpensIn(events: seq<Event>): nat {
    if |events| == 0 then 0
    else OpensIn(events[..|events| - 1]) + if events[|events| - 1].Opens? then 1 else 0
  }

  lemma ExtendCounts(t: Trace, ev: Event)
    requires Typed(t.link)
    ensures Extend(t, ev).opens == t.opens + if ev.Opens? then 1 else 0
  {
  }

  lemma {:induction false} OpensCounted(link: Link, events: seq<Event>)
    requires Typed(link)
    ensures Run(link, events).opens == OpensIn(events)
    decreases |events|
  {
    if events != [] {
      OpensCounted(link, events[..|events| - 1]);
      ExtendCounts(Run(link, events[..|events| - 1]), events[|events| - 1]);
    }
  }

  lemma {:induction false} SomeUp(log: seq<Action>)
    requires Count(log, IsUp) > 0
    ensures exists j :: 0 <= j < |log| && log[j].Up?
  {
    if !log[|log| - 1].Up? {
      SomeUp(log[..|log| - 1]);
      var j :| 0 <= j < |log| - 1 && log[..|log| - 1][j].Up?;
      assert log[j].Up?;
    }
  }

  lemma FollowsExtend(log: seq<Action>, actions: seq<Action>)
    requires DeliversFollowUps(log)
    requires (exists a :: a in actions && a.Deliver?) ==> Count(log, IsUp) > 0
    ensures DeliversFollowUps(log + actions)
  {
    var all := log + actions;
    forall i | 0 <= i < |all| && all[i].Deliver? ensures exists j :: 0 <= j < i && all[j].Up? {
      if i < |log| {
        assert log[i].Deliver?;
        var j :| 0 <= j < i && log[j].Up?;
        assert all[j].Up?;
      } else {
        assert all[i] == actions[i - |log|] && all[i] in actions;
        SomeUp(log);
        var j :| 0 <= j < |log| && log[j].Up?;
        assert all[j].Up?;
      }
    }
  }

  lemma StepKeepsLayers(t: Trace, ev: Event)
    requires LayersHold(t) && !ev.Opens?
    ensures LayersHold(Extend(t, ev))
  {
    var (q, actions) := Step(t.link, ev);
    StepAdvances(t.link, ev);
    CountAppend(t.log, actions, IsUp);
    CountAppend(t.log, actions, IsDown);
    FollowsExtend(t.log, actions);
  }

  lemma OpenKeepsLayers(t: Trace, now: int)
    requires LayersHold(t) && t.opens == 0
    ensures LayersHold(Extend(t, Opens(now)))
  {
    var (q, actions) := OpenLink(t.link, now);
    OpenAdvances(t.link, now);
    CountThen(actions, []);
    SendsCountNothing(actions);
    CountAppend(t.log, actions, IsUp);
    CountAppend(t.log, actions, IsDown);
    FollowsExtend(t.log, actions);
  }

  lemma StepKeepsBounds(t: Trace, ev: Event)
    requires LayersHold(t) && BoundsHold(t) && !ev.Opens?
    ensures BoundsHold(Extend(t, ev))
  {
    var (q, actions) := Step(t.link, ev);
    StepCosts(t.link, ev);
    CostsTell(t.link, q, actions);
    StepAdvances(t.link, ev);
    CountAppend(t.log, actions, IsIpcpRequest);
    CountAppend(t.log, actions, IsLcpTerminate);
    CountAppend(t.recent, actions, IsLcpRequest);
    if ev.Expires? {
      LcpTimeoutExpiries(t.link, ev.now);
      IpcpTimeoutExpiries(t.link, ev.now);
    }
  }

  lemma OpenKeepsBounds(t: Trace, now: int)
    requires LayersHold(t) && BoundsHold(t) && t.opens == 0
    ensures BoundsHold(Extend(t, Opens(now)))
  {
    var (q, actions) := OpenLink(t.link, now);
    RequestFits(t.link.lcp.layer);
    OnePacket(q.lcp, q.lcp.layer, CONF_REQ, q.lcp.id, EncodeAll(q.lcp.layer.Request()));
    OwnCounts(q.lcp, actions);
    CountAppend(t.log, actions, IsIpcpRequest);
    CountAppend(t.log, actions, IsLcpTerminate);
  }

  lemma {:induction false} RunHolds(mru: u16, magic: u32, askDns: bool, events: seq<Event>)
    requires OpensIn(events) <= 1
    ensures LayersHold(Run(NewLink(mru, magic, askDns), events)) && BoundsHold(Run(NewLink(mru, magic, askDns), events))
    decreases |events|
  {
    if events != [] {
      var before, ev := events[..|events| - 1], events[|events| - 1];
      RunHolds(mru, magic, askDns, before);
      OpensCounted(NewLink(mru, magic, askDns), before);
      var t := Run(NewLink(mru, magic, askDns), before);
      match ev
      case Opens(now) => OpenKeepsLayers(t, now); OpenKeepsBounds(t, now);
      case _ => StepKeepsLayers(t, ev); StepKeepsBounds(t, ev);
    }
  }

  /** Over every run with one open, whatever the peer sends: LCP open means
      IPCP negotiates or is open; the link goes up at the most once and down
      at the most once; every packet delivered follows the Up; and while no
      timer runs LCP is not begun or over, or both layers are open. The link
      is only up without LCP once it has reported Down. */
  lemma LayersStack(mru: u16, magic: u32, askDns: bool, events: seq<Event>)
    requires OpensIn(events) <= 1
    ensures var t := Run(NewLink(mru, magic, askDns), events);
            && (t.link.lcp.state.Opened? ==> Active(t.link.ipcp.state))
            && Count(t.log, IsUp) <= 1 && Count(t.log, IsDown) <= 1
            && DeliversFollowUps(t.log)
            && (t.link.IsUp() && !t.link.lcp.state.Opened? ==> t.link.lcp.state.Closed? && t.link.down)
            && (t.link.NextTimeout().None? ==>
                  t.link.lcp.state.Initial? || t.link.lcp.state.Closed?
                  || (t.link.lcp.state.Opened? && t.link.ipcp.state.Opened?))
  {
    RunHolds(mru, magic, askDns, events);
    OpensCounted(NewLink(mru, magic, askDns), events);
  }

  /** An Up comes out of a step that finds LCP open and leaves it open. */
  lemma UpNeedsLcp(mru: u16, magic: u32, askDns: bool, events: seq<Event>, ev: Event, a: Action)
    requires OpensIn(events + [ev]) <= 1
    requires var t := Run(NewLink(mru, magic, askDns), events); a in Step(t.link, ev).1 && a.Up?
    ensures var t := Run(NewLink(mru, magic, askDns), events);
            Step(t.link, ev).0.lcp.state.Opened? && Step(t.link, ev).0.ipcp.state.Opened?
  {
    assert (events + [ev])[..|events|] == events;
    RunHolds(mru, magic, askDns, events);
    var t := Run(NewLink(mru, magic, askDns), events);
    if ev.Opens? {
      OpensCounted(NewLink(mru, magic, askDns), events);
      OpenAdvances(t.link, ev.now);
    } else {
      StepAdvances(t.link, ev);
      assert GoodUp(Step(t.link, ev).0, a);
    }
  }

  /** Over every run with one open, whatever the peer sends: since the open
      LCP has sent at the most 51 Configure-Requests and IPCP 21; there were at
      the most 3 Terminate-Requests; and LCP's timer expired at the most 41
      times while it negotiated, IPCP's 11. */
  lemma NegotiationIsBounded(mru: u16, magic: u32, askDns: bool, events: seq<Event>)
    requires OpensIn(events) == 1
    ensures var t := Run(NewLink(mru, magic, askDns), events);
            && Count(t.recent, IsLcpRequest) <= 1 + LCP_MAX_CONFIGURE + 2 * MAX_NAK_LOOPS
            && Count(t.log, IsIpcpRequest) <= 1 + IPCP_MAX_CONFIGURE + 2 * MAX_NAK_LOOPS
            && Count(t.log, IsLcpTerminate) <= 1 + MAX_TERMINATE
            && t.lcpExpiries <= LCP_MAX_CONFIGURE + 1 && t.ipcpExpiries <= IPCP_MAX_CONFIGURE + 1
  {
    RunHolds(mru, magic, askDns, events);
    OpensCounted(NewLink(mru, magic, askDns), events);
  }

  // ---- the bound is reached ------------------------------------------------------------

  /** An automaton whose timer expires `k` times with no packet between, and
      how many Configure-Requests it sends. */
  function Silence(f: Fsm, k: nat): (Fsm, nat) {
    if k == 0 then (f, 0)
    else
      var (g, sent) := Silence(f, k - 1);
      var d := Expire(g, if g.timer.Some? then g.timer.value else 0);
      (d.fsm, sent + if SendsCode(g, d.actions, CONF_REQ) then 1 else 0)
  }

  /** And one whose requests are refused `k` times, by Naks without options. */
  function Refusals(f: Fsm, k: nat, now: int): (Fsm, nat) {
    if k == 0 then (f, 0)
    else
      var (g, sent) := Refusals(f, k - 1, now);
      var d := OnNakOrRej(g, CONF_NAK, g.id, [], now);
      (d.fsm, sent + if SendsCode(g, d.actions, CONF_REQ) then 1 else 0)
  }

  lemma OneExpiry(f: Fsm)
    requires f.state.ReqSent? && f.timer.Some? && f.retransmits > 0
    ensures var d := Expire(f, f.timer.value);
            && SendsCode(f, d.actions, CONF_REQ) && d.fsm.state.ReqSent? && d.fsm.timer.Some?
            && d.fsm.retransmits == f.retransmits - 1 && d.fsm.nakLoops == f.nakLoops
  {
    RequestFits(f.layer);
    OnePacket(f, f.layer, CONF_REQ, f.id, EncodeAll(f.layer.Request()));
  }

  lemma {:induction false} SilenceSends(f: Fsm, k: nat)
    requires f.state.ReqSent? && f.timer.Some? && k <= f.retransmits
    ensures var (g, sent) := Silence(f, k);
            sent == k && g.state.ReqSent? && g.timer.Some? && g.retransmits == f.retransmits - k && g.nakLoops == f.nakLoops
  {
    if k > 0 {
      SilenceSends(f, k - 1);
      OneExpiry(Silence(f, k - 1).0);
    }
  }

  lemma OneRefusal(f: Fsm, now: int)
    requires f.state.ReqSent? && f.nakLoops < 2 * MAX_NAK_LOOPS
    ensures var d := OnNakOrRej(f, CONF_NAK, f.id, [], now);
            && SendsCode(f, d.actions, CONF_REQ) && d.fsm.state.ReqSent?
            && d.fsm.retransmits == f.retransmits && d.fsm.nakLoops == f.nakLoops + 1
  {
    var layer := Accept(f.layer, [], f.nakLoops + 1 > MAX_NAK_LOOPS);
    RequestFits(layer);
    OnePacket(f, layer, CONF_REQ, Next(f.id), EncodeAll(layer.Request()));
  }

  lemma {:induction false} RefusalsSend(f: Fsm, k: nat, now: int)
    requires f.state.ReqSent? && f.nakLoops + k <= 2 * MAX_NAK_LOOPS
    ensures var (g, sent) := Refusals(f, k, now);
            sent == k && g.state.ReqSent? && g.nakLoops == f.nakLoops + k && g.retransmits == f.retransmits
  {
    if k > 0 {
      RefusalsSend(f, k - 1, now);
      OneRefusal(Refusals(f, k - 1, now).0, now);
    }
  }

  /** The bound on Configure-Requests is the least one: a peer that says
      nothing for all retransmissions, and then refuses, gets them all. */
  lemma BoundIsReached(layer: Layer, now: int, expiries: nat, refusals: nat)
    requires expiries == layer.MaxConfigure() && refusals == 2 * MAX_NAK_LOOPS
    ensures var first := Start(NewFsm(layer), now);
            var (g, silent) := Silence(first.fsm, expiries);
            var (h, refused) := Refusals(g, refusals, now);
            && SendsCode(NewFsm(layer), first.actions, CONF_REQ)
            && silent == expiries && refused == refusals
            && h.state.ReqSent? && RequestsLeft(h) == 0
  {
    var f := Start(NewFsm(layer), now).fsm;
    RequestFits(layer);
    OnePacket(NewFsm(layer), layer, CONF_REQ, f.id, EncodeAll(layer.Request()));
    SilenceSends(f, expiries);
    RefusalsSend(Silence(f, expiries).0, refusals, now);
  }
}
