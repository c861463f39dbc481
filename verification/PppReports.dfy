/** What a PPP link reports when LCP ends or IPCP is rejected: where an Up and
    a Down are not in the order one would think, exactly. */
module PppReports {
  import opened Bytes
  import opened PppOptions
  import opened PppFsm
  import opened PppLink
  import opened PppRuns
  import opened PppBounds

  lemma ControlReads(layer: Layer, code: byte, id: byte, data: bytes)
    requires |data| + 4 < 0x1_0000
    ensures var packet := Packet(layer, code, id, data);
            && |packet| >= 6 && FromBe16(packet[..2]) == layer.Protocol()
            && ParseControl(packet[2..]) == Some((code, id, data))
  {
    PacketReads(layer, code, id, data);
    var payload := Packet(layer, code, id, data)[2..];
    assert payload[2..4] == Be16(|data| + 4) && payload[4..|data| + 4] == data;
  }

  // ---- what is answered at once -----------------------------------------------------

  /** An Echo-Request is answered while LCP is open, with our magic number and
      the rest of its data; nothing else happens. */
  lemma EchoIsAnswered(p: Link, id: byte, data: bytes, now: int, randoms: nat -> u32)
    requires Typed(p) && |data| + 4 < 0x1_0000
    ensures var reply := Be32(p.lcp.layer.magic) + (if |data| < 4 then [] else data[4..]);
            Input(p, Packet(p.lcp.layer, 9, id, data), now, randoms)
            == (p, if p.lcp.state.Opened? then [Send(Packet(p.lcp.layer, 10, id, reply))] else [])
  {
    ControlReads(p.lcp.layer, ECHO_REQ, id, data);
  }

  /** A Terminate-Request is acknowledged in every state, and ends the layer. */
  lemma TerminateIsAcknowledged(f: Fsm, id: byte, data: bytes, now: int, randoms: nat -> u32)
    requires |data| + 4 < 0x1_0000
    ensures var d := Handle(f, 5, id, data, now, randoms);
            && d.actions == [Send(Packet(f.layer, 6, id, []))] && d.fsm == f.(state := Closed, timer := None)
            && d.outcome == Some(LayerDown(Terminated(f.layer.Lcp?)))
  {
  }

  /** An Echo-Reply, a Discard-Request, an Identification or a Time-Remaining
      does nothing. */
  lemma OthersAreIgnored(p: Link, code: byte, id: byte, data: bytes, now: int, randoms: nat -> u32)
    requires Typed(p) && |data| + 4 < 0x1_0000 && 10 <= code <= 13
    ensures Input(p, Packet(p.lcp.layer, code, id, data), now, randoms) == (p, [])
  {
    ControlReads(p.lcp.layer, code, id, data);
  }

  /** A rejection of one of the seven codes of the automaton ends the layer;
      one of another code undoes an Ack that came before ours at most. */
  lemma CodeRejectDoes(f: Fsm, id: byte, data: bytes, now: int, randoms: nat -> u32)
    requires |data| + 4 < 0x1_0000 && !f.state.Closing?
    ensures var d := Handle(f, 7, id, data, now, randoms);
            && d.actions == []
            && (d.outcome.Some? <==> data != [] && 1 <= data[0] <= 7)
            && (d.outcome.Some? ==>
                  d.fsm == f.(state := Closed, timer := None) && d.outcome.value == LayerDown(CodeRejected(f.layer.Lcp?, data[0])))
            && (d.outcome.None? ==> d.fsm == f.(state := if f.state.AckRcvd? then ReqSent else f.state))
  {
  }

  /** What asks for an answer comes with a timer of 3 seconds. */
  lemma AskedAgainIn3(f: Fsm, now: int)
    ensures Start(f, now).fsm.timer == Some(now + 3)
    ensures Active(f.state) ==> Finish(f, now).0.fsm.timer == Some(now + 3)
    ensures Expire(f, now).actions != [] ==> Expire(f, now).fsm.timer == Some(now + 3)
  {
  }

  // ---- up without LCP --------------------------------------------------------------

  /** A packet that ends LCP while it is open: a Terminate-Request, a
      Terminate-Ack, the rejection of a code the automaton needs, or a
      Configure-Request other than the one agreed to. */
  predicate EndsLcp(p: Link, packet: bytes) {
    && |packet| >= 2 && FromBe16(packet[..2]) == LCP_PROTOCOL
    && match ParseControl(packet[2..])
       case None => false
       case Some((code, _, data)) =>
         || code == TERM_REQ || code == TERM_ACK
         || (code == CODE_REJ && data != [] && CONF_REQ <= data[0] <= CODE_REJ)
         || (code == CONF_REQ && ParseAll(data).Some? && ParseAll(data).value != p.lcp.peerOptions)
  }

  lemma LcpHandleEnds(p: Link, packet: bytes, now: int, randoms: nat -> u32)
    requires Typed(p) && p.lcp.state.Opened? && |packet| >= 2 && FromBe16(packet[..2]) == LCP_PROTOCOL && ParseControl(packet[2..]).Some?
    ensures var (code, id, data) := ParseControl(packet[2..]).value;
            !LcpHandle(p.lcp, code, id, data, now, randoms).fsm.state.Opened? <==> EndsLcp(p, packet)
  {
  }

  lemma LcpLeavesIpcp(p: Link, d: Done, now: int)
    requires Typed(p) && d.fsm.layer.Lcp? && d.outcome != Some(LayerUp)
    ensures var (q, actions) := AfterLcp(p, d, now);
            && q.lcp == d.fsm && q.ipcp == p.ipcp && (d.outcome.None? ==> q.down == p.down)
            && (d.outcome.Some? ==> q.down && (p.down || exists a :: a in actions && a.Down?))
  {
    if d.outcome.Some? && !p.down {
      assert AfterLcp(p, d, now).1[|d.actions|] == Down(d.outcome.value.reason);
    }
  }

  lemma IpcpLeavesNothingUp(p: Link, d: Done, now: int)
    requires Typed(p) && p.lcp.state.Opened? && d.fsm.layer.Ipcp? && d.outcome != Some(LayerUp) && EndsClosed(d)
    ensures var q := AfterIpcp(p, d, now).0; q.IsUp() ==> q.lcp.state.Opened?
  {
  }

  /** With both layers open, a packet leaves the link up without LCP if and
      only if it ends LCP. */
  lemma UpOutlivesLcp(p: Link, packet: bytes, now: int, randoms: nat -> u32)
    requires Typed(p) && p.lcp.state.Opened? && p.IsUp()
    ensures var (q, actions) := Input(p, packet, now, randoms);
            && (q.IsUp() && !q.lcp.state.Opened? <==> EndsLcp(p, packet))
            && (EndsLcp(p, packet) ==> q.down && (p.down || exists a :: a in actions && a.Down?))
  {
    if |packet| >= 2 && ParseControl(packet[2..]).Some? {
      var (code, id, data) := ParseControl(packet[2..]).value;
      if FromBe16(packet[..2]) == LCP_PROTOCOL {
        LcpHandleMoves(p.lcp, code, id, data, now, randoms);
        LcpHandleEnds(p, packet, now, randoms);
        LcpLeavesIpcp(p, LcpHandle(p.lcp, code, id, data, now, randoms), now);
      } else if FromBe16(packet[..2]) == IPCP_PROTOCOL {
        HandleMoves(p.ipcp, code, id, data, now, randoms);
        IpcpLeavesNothingUp(p, Handle(p.ipcp, code, id, data, now, randoms), now);
      }
    }
  }

  /** And packets are delivered still, while the link is up. */
  lemma UpDelivers(p: Link, ip: bytes, now: int, randoms: nat -> u32)
    requires Typed(p)
    ensures Input(p, EncodeIp(ip), now, randoms) == (p, if p.IsUp() then [Deliver(ip)] else [])
  {
    assert EncodeIp(ip)[..2] == Be16(IP_PROTOCOL) && EncodeIp(ip)[2..] == ip;
  }

  // ---- an Up after a Down -----------------------------------------------------------

  /** A Protocol-Reject of IPCP. */
  predicate RejectsIpcp(ev: Event) {
    && ev.Receives? && |ev.packet| >= 2 && FromBe16(ev.packet[..2]) == LCP_PROTOCOL
    && match ParseControl(ev.packet[2..])
       case None => false
       case Some((code, _, data)) => code == PROTO_REJ && |data| >= 2 && FromBe16(data[..2]) == IPCP_PROTOCOL
  }

  /** A Down is owed no more than the Ups that can still come: the link is
      opened when Down was reported already, or IPCP is rejected while an Up
      can still come. */
  predicate Misleads(p: Link, ev: Event) {
    (ev.Opens? && p.down) || (RejectsIpcp(ev) && UpsLeft(p) > 0)
  }

  /** Once Down is reported no Up can come. */
  predicate Honest(p: Link) { p.down ==> UpsLeft(p) == 0 }

  lemma LcpKeepsHonest(p: Link, d: Done, now: int)
    requires Stacked(p) && Honest(p) && Moves(p.lcp, d) && EndsClosed(d)
    ensures d.fsm.layer.Lcp? && Honest(AfterLcp(p, d, now).0)
  {
  }

  lemma IpcpKeepsHonest(p: Link, d: Done, now: int)
    requires Stacked(p) && Honest(p) && Moves(p.ipcp, d) && EndsClosed(d)
    requires p.lcp.state.Negotiating() ==> d.outcome.None?
    ensures d.fsm.layer.Ipcp? && Honest(AfterIpcp(p, d, now).0)
  {
  }

  lemma InputKeepsHonest(p: Link, packet: bytes, now: int, randoms: nat -> u32)
    requires Stacked(p) && Honest(p) && !Misleads(p, Receives(packet, now, randoms))
    ensures Honest(Input(p, packet, now, randoms).0)
  {
    if |packet| >= 2 && ParseControl(packet[2..]).Some? {
      var (code, id, data) := ParseControl(packet[2..]).value;
      if FromBe16(packet[..2]) == LCP_PROTOCOL {
        LcpHandleMoves(p.lcp, code, id, data, now, randoms);
        HandleMoves(p.lcp, code, id, data, now, randoms);
        if !RejectsIpcp(Receives(packet, now, randoms)) {
          LcpKeepsHonest(p, LcpHandle(p.lcp, code, id, data, now, randoms), now);
        }
      } else if FromBe16(packet[..2]) == IPCP_PROTOCOL && p.lcp.state.Opened? {
        HandleMoves(p.ipcp, code, id, data, now, randoms);
        IpcpKeepsHonest(p, Handle(p.ipcp, code, id, data, now, randoms), now);
      }
    }
  }

  lemma TimeoutKeepsHonest(p: Link, now: int)
    requires Stacked(p) && Honest(p)
    ensures Honest(Timeout(p, now).0)
  {
    var d := Expire(p.lcp, now);
    ExpireMoves(p.lcp, now);
    LcpKeepsHonest(p, d, now);
    AfterLcpAdvances(p, d, now);
    var q := AfterLcp(p, d, now).0;
    ExpireMoves(q.ipcp, now);
    IpcpKeepsHonest(q, Expire(q.ipcp, now), now);
  }

  lemma CloseKeepsHonest(p: Link, now: int)
    requires Stacked(p)
    ensures UpsLeft(CloseLink(p, now).0) == 0
  {
    LcpClosesAdvances(p.(ipcp := p.ipcp.(state := Closed, timer := None)), now, LinkClosed);
  }

  lemma RejectionMisleads(p: Link, packet: bytes, now: int, randoms: nat -> u32)
    requires Typed(p) && RejectsIpcp(Receives(packet, now, randoms))
    ensures Input(p, packet, now, randoms).0 == p.(down := true)
  {
  }

  /** From a link that is honest, a step leaves it so if and only if it does
      not mislead. */
  lemma StepKeepsHonest(p: Link, ev: Event)
    requires Stacked(p) && Honest(p) && (ev.Opens? ==> Unopened(p))
    ensures Honest(Step(p, ev).0) <==> !Misleads(p, ev)
    ensures Misleads(p, ev) ==> Step(p, ev).0.down
  {
    match ev
    case Opens(now) => OpenAdvances(p, now);
    case Closes(now) => CloseKeepsHonest(p, now);
    case Expires(now) => TimeoutKeepsHonest(p, now);
    case Receives(packet, now, randoms) =>
      if RejectsIpcp(ev) {
        RejectionMisleads(p, packet, now, randoms);
      } else {
        InputKeepsHonest(p, packet, now, randoms);
      }
  }

  /** An Up that follows a Down. */
  ghost predicate UpAfterDown(log: seq<Action>) {
    exists i, j :: 0 <= i < j < |log| && log[i].Down? && log[j].Up?
  }

  ghost predicate HasUp(actions: seq<Action>) { exists a :: a in actions && a.Up? }

  /** Of each event in turn: whether it misleads, and whether it gives an Up. */
  ghost function Marks(link: Link, events: seq<Event>): (marks: seq<(bool, bool)>)
    requires Typed(link)
    ensures |marks| == |events|
    decreases |events|
  {
    if events == [] then []
    else
      var before, ev := events[..|events| - 1], events[|events| - 1];
      var p := Run(link, before).link;
      Marks(link, before) + [(Misleads(p, ev), HasUp(Step(p, ev).1))]
  }

  predicate Misled(marks: seq<(bool, bool)>) {
    exists i :: 0 <= i < |marks| && marks[i].0
  }

  /** An event that misleads, and then one with an Up. */
  predicate MisledUp(marks: seq<(bool, bool)>) {
    exists i, k :: 0 <= i < k < |marks| && marks[i].0 && marks[k].1
  }

  lemma IpcpUpAlone(p: Link, d: Done, now: int)
    requires Typed(p) && d.fsm.layer.Ipcp? && (forall a :: a in d.actions ==> a.Send?) && HasUp(AfterIpcp(p, d, now).1)
    ensures forall a :: a in AfterIpcp(p, d, now).1 ==> !a.Down?
  {
  }

  /** No step reports both. */
  lemma UpStepIsAlone(p: Link, ev: Event)
    requires Stacked(p) && HasUp(Step(p, ev).1)
    ensures forall a :: a in Step(p, ev).1 ==> !a.Down?
  {
    match ev
    case Opens(now) =>
    case Closes(now) =>
    case Expires(now) =>
      ExpireMoves(p.lcp, now);
      AfterLcpNoUp(p, Expire(p.lcp, now), now);
      var q := AfterLcp(p, Expire(p.lcp, now), now).0;
      ExpireMoves(q.ipcp, now);
    case Receives(packet, now, randoms) =>
      match ParseControl(packet[2..])
      case None =>
      case Some((code, id, data)) =>
        if FromBe16(packet[..2]) == LCP_PROTOCOL {
          LcpHandleMoves(p.lcp, code, id, data, now, randoms);
          AfterLcpNoUp(p, LcpHandle(p.lcp, code, id, data, now, randoms), now);
        } else if FromBe16(packet[..2]) == IPCP_PROTOCOL {
          HandleMoves(p.ipcp, code, id, data, now, randoms);
          IpcpUpAlone(p, Handle(p.ipcp, code, id, data, now, randoms), now);
        }
  }

  lemma {:induction false} SomeDown(log: seq<Action>)
    ensures Count(log, IsDown) > 0 <==> exists i :: 0 <= i < |log| && log[i].Down?
  {
    if log != [] {
      var before := log[..|log| - 1];
      SomeDown(before);
      if i :| 0 <= i < |log| && log[i].Down? {
        assert i < |before| ==> before[i].Down?;
      }
      if i :| 0 <= i < |before| && before[i].Down? {
        assert log[i].Down?;
      }
      assert IsDown(log[|log| - 1]) ==> log[|log| - 1].Down?;
    }
  }

  /** One step's actions after a log. */
  lemma LogMisleads(log: seq<Action>, actions: seq<Action>)
    requires HasUp(actions) ==> forall a :: a in actions ==> !a.Down?
    ensures UpAfterDown(log + actions) <==> UpAfterDown(log) || (Count(log, IsDown) > 0 && HasUp(actions))
  {
    var all := log + actions;
    SomeDown(log);
    if i, j :| 0 <= i < j < |all| && all[i].Down? && all[j].Up? {
      if j < |log| {
        assert log[i].Down? && log[j].Up?;
      } else {
        assert all[j] in actions;
        assert i < |log| && log[i].Down?;
      }
    }
    if i, j :| 0 <= i < j < |log| && log[i].Down? && log[j].Up? {
      assert all[i].Down? && all[j].Up?;
    }
    if Count(log, IsDown) > 0 && HasUp(actions) {
      var i :| 0 <= i < |log| && log[i].Down?;
      var a :| a in actions && a.Up?;
      var j :| 0 <= j < |actions| && actions[j] == a;
      assert all[i].Down? && all[|log| + j].Up?;
    }
  }

  lemma MarksGrow(marks: seq<(bool, bool)>, mark: (bool, bool))
    ensures Misled(marks + [mark]) <==> Misled(marks) || mark.0
    ensures MisledUp(marks + [mark]) <==> MisledUp(marks) || (Misled(marks) && mark.1)
  {
    var all := marks + [mark];
    assert all[|marks|] == mark && forall i :: 0 <= i < |marks| ==> all[i] == marks[i];
    if Misled(marks) {
      var i :| 0 <= i < |marks| && marks[i].0;
      assert all[i].0;
    }
    if MisledUp(marks) {
      var i, k :| 0 <= i < k < |marks| && marks[i].0 && marks[k].1;
      assert all[i].0 && all[k].1;
    }
  }

  lemma {:induction false} UpCounts(actions: seq<Action>, i: nat)
    requires i < |actions| && actions[i].Up?
    ensures Count(actions, IsUp) > 0
  {
    if i < |actions| - 1 {
      UpCounts(actions[..|actions| - 1], i);
    }
  }

  lemma UpNeedsOneLeft(p: Link, q: Link, actions: seq<Action>)
    requires Advances(p, q, actions) && HasUp(actions)
    ensures UpsLeft(p) > 0
  {
    var a :| a in actions && a.Up?;
    var i :| 0 <= i < |actions| && actions[i] == a;
    UpCounts(actions, i);
  }

  /** What is so of a link and its log, when misled or not. */
  ghost predicate ReportsHold(t: Trace, misled: bool) {
    && LayersHold(t) && (if misled then t.link.down else Honest(t.link))
  }

  lemma StepReports(t: Trace, ev: Event, misled: bool)
    requires ReportsHold(t, misled) && t.opens + (if ev.Opens? then 1 else 0) <= 1
    ensures ReportsHold(Extend(t, ev), misled || Misleads(t.link, ev))
    ensures UpAfterDown(Extend(t, ev).log) <==> UpAfterDown(t.log) || (misled && HasUp(Step(t.link, ev).1))
  {
    var p, actions := t.link, Step(t.link, ev).1;
    if HasUp(actions) {
      UpStepIsAlone(p, ev);
    }
    LogMisleads(t.log, actions);
    if ev.Opens? {
      OpenKeepsLayers(t, ev.now);
      OpenAdvances(p, ev.now);
    } else {
      StepKeepsLayers(t, ev);
      StepAdvances(p, ev);
      if HasUp(actions) {
        UpNeedsOneLeft(p, Step(p, ev).0, actions);
      }
    }
    if !misled {
      StepKeepsHonest(p, ev);
    }
  }

  lemma {:induction false} RunReports(mru: u16, magic: u32, askDns: bool, events: seq<Event>)
    requires OpensIn(events) <= 1
    ensures var t, marks := Run(NewLink(mru, magic, askDns), events), Marks(NewLink(mru, magic, askDns), events);
            ReportsHold(t, Misled(marks)) && (UpAfterDown(t.log) <==> MisledUp(marks))
    decreases |events|
  {
    if events != [] {
      var link, before, ev := NewLink(mru, magic, askDns), events[..|events| - 1], events[|events| - 1];
      RunReports(mru, magic, askDns, before);
      OpensCounted(link, before);
      var t := Run(link, before);
      StepReports(t, ev, Misled(Marks(link, before)));
      MarksGrow(Marks(link, before), (Misleads(t.link, ev), HasUp(Step(t.link, ev).1)));
    }
  }

  /** Over every run with one open: an Up follows a Down if and only if it
      follows an event that misleads. So none does while the link is opened
      before anything was reported, and IPCP is not rejected while an Up can
      still come. */
  lemma UpFollowsDown(mru: u16, magic: u32, askDns: bool, events: seq<Event>)
    requires OpensIn(events) <= 1
    ensures UpAfterDown(Run(NewLink(mru, magic, askDns), events).log) <==> MisledUp(Marks(NewLink(mru, magic, askDns), events))
  {
    RunReports(mru, magic, askDns, events);
  }

  // ---- it does happen ------------------------------------------------------------

  function Comes(layer: Layer, code: byte, id: byte, data: bytes): Event
    requires |data| + 4 < 0x1_0000
  {
    Receives(Packet(layer, code, id, data), 0, _ => 0)
  }

  lemma RunsOn(link: Link, events: seq<Event>, ev: Event)
    requires Typed(link)
    ensures Run(link, events + [ev]) == Extend(Run(link, events), ev)
    ensures OpensIn(events + [ev]) == OpensIn(events) + if ev.Opens? then 1 else 0
  {
    assert (events + [ev])[..|events + [ev]| - 1] == events;
  }

  lemma EmptyRequestAgreed(f: Fsm, id: byte)
    requires f.state.ReqSent?
    ensures var d := Handle(f, CONF_REQ, id, [], 0, _ => 0);
            && d.fsm == f.(layer := f.layer.PeerConfigured([]), peerOptions := [], state := AckSent) && d.outcome == None
  {
    assert ParseAll([]) == Some([]);
    assert Answer(f.layer, [], _ => 0) == (CONF_ACK, []);
  }

  lemma AckOpens(f: Fsm)
    requires f.state.AckSent?
    ensures Handle(f, CONF_ACK, f.id, [], 0, _ => 0) == Done(f.(state := Opened, timer := None), [], Some(LayerUp))
  {
  }

  lemma LcpAgrees(p: Link)
    requires Typed(p) && p.lcp.state.ReqSent?
    ensures var (q, actions) := Step(p, Comes(p.lcp.layer, CONF_REQ, 0, []));
            q.lcp.state.AckSent? && q.down == p.down
  {
    ControlReads(p.lcp.layer, CONF_REQ, 0, []);
    EmptyRequestAgreed(p.lcp, 0);
  }

  lemma LcpOpens(p: Link)
    requires Typed(p) && p.lcp.state.AckSent?
    ensures var (q, actions) := Step(p, Comes(p.lcp.layer, CONF_ACK, p.lcp.id, []));
            q.lcp.state.Opened? && q.ipcp.state.ReqSent? && q.ipcp.nakLoops == 0 && q.down == p.down
  {
    ControlReads(p.lcp.layer, CONF_ACK, p.lcp.id, []);
    AckOpens(p.lcp);
  }

  /** IPCP is negotiated over an open LCP. */
  predicate IpcpAsks(p: Link) {
    Typed(p) && p.lcp.state.Opened? && p.ipcp.state.ReqSent?
  }

  /** The options of a Nak that suggests address 0.0.0.1. */
  function Suggestion(): bytes { EncodeOne(Opt(IPCP_ADDRESS, Be32(1))) }

  lemma SuggestionParses(layer: Layer)
    requires layer.Ipcp?
    ensures |Suggestion()| == 6 && ParseAll(Suggestion()).Some?
    ensures Accept(layer, ParseAll(Suggestion()).value, false) == layer.(local := 1)
  {
    var one := Opt(IPCP_ADDRESS, Be32(1));
    assert [one][1..] == [] && EncodeAll([one]) == Suggestion() + [];
    assert Suggestion() + [] == Suggestion();
    ParsesBack([one]);
    Be32RoundTrip(1);
    assert [one][..0] == [];
  }

  lemma IpcpGetsAddress(p: Link)
    requires IpcpAsks(p) && p.ipcp.nakLoops == 0
    ensures var (q, actions) := Step(p, Comes(p.ipcp.layer, CONF_NAK, p.ipcp.id, Suggestion()));
            IpcpAsks(q) && q.ipcp.layer.local == 1 && q.down == p.down
  {
    ControlReads(p.ipcp.layer, CONF_NAK, p.ipcp.id, Suggestion());
    SuggestionParses(p.ipcp.layer);
  }

  lemma IpcpAgrees(p: Link)
    requires IpcpAsks(p) && p.ipcp.layer.local != UNSPECIFIED
    ensures var (q, actions) := Step(p, Comes(p.ipcp.layer, CONF_REQ, 0, []));
            Typed(q) && q.lcp.state.Opened? && q.ipcp.state.AckSent? && q.ipcp.layer.local != UNSPECIFIED && q.down == p.down
  {
    ControlReads(p.ipcp.layer, CONF_REQ, 0, []);
    EmptyRequestAgreed(p.ipcp, 0);
  }

  lemma IpcpOpens(p: Link)
    requires Typed(p) && p.lcp.state.Opened? && p.ipcp.state.AckSent? && p.ipcp.layer.local != UNSPECIFIED
    ensures HasUp(Step(p, Comes(p.ipcp.layer, CONF_ACK, p.ipcp.id, [])).1)
  {
    ControlReads(p.ipcp.layer, CONF_ACK, p.ipcp.id, []);
    AckOpens(p.ipcp);
    assert Up(AddressesOf(p.(ipcp := p.ipcp.(state := Opened, timer := None)))) in Step(p, Comes(p.ipcp.layer, CONF_ACK, p.ipcp.id, [])).1;
  }

  lemma FirstRequest(p: Link)
    requires Typed(p)
    ensures var q := Step(p, Opens(0)).0; q.lcp.state.ReqSent? && q.down == p.down && Typed(q)
  {
  }

  /** From the open to LCP open, with a peer that agrees to all. */
  lemma LcpComesUp(link: Link, events: seq<Event>) returns (more: seq<Event>)
    requires Typed(link)
    ensures events <= more && OpensIn(more) == OpensIn(events) + 1
    ensures var p, q := Run(link, events).link, Run(link, more).link; IpcpAsks(q) && q.ipcp.nakLoops == 0 && q.down == p.down
  {
    var p := Run(link, events).link;
    RunsOn(link, events, Opens(0));
    FirstRequest(p);
    var p1 := Step(p, Opens(0)).0;
    var e1 := Comes(p1.lcp.layer, CONF_REQ, 0, []);
    RunsOn(link, events + [Opens(0)], e1);
    LcpAgrees(p1);
    var p2 := Step(p1, e1).0;
    var e2 := Comes(p2.lcp.layer, CONF_ACK, p2.lcp.id, []);
    RunsOn(link, events + [Opens(0)] + [e1], e2);
    LcpOpens(p2);
    more := events + [Opens(0)] + [e1] + [e2];
  }

  /** From LCP open to the Up. */
  lemma IpcpComesUp(link: Link, events: seq<Event>) returns (more: seq<Event>, last: Event)
    requires Typed(link) && IpcpAsks(Run(link, events).link) && Run(link, events).link.ipcp.nakLoops == 0
    ensures events <= more && OpensIn(more) == OpensIn(events) && !last.Opens?
    ensures HasUp(Step(Run(link, more).link, last).1) && Run(link, more).link.down == Run(link, events).link.down
  {
    var p := Run(link, events).link;
    var e1 := Comes(p.ipcp.layer, CONF_NAK, p.ipcp.id, Suggestion());
    RunsOn(link, events, e1);
    IpcpGetsAddress(p);
    var p1 := Step(p, e1).0;
    var e2 := Comes(p1.ipcp.layer, CONF_REQ, 0, []);
    RunsOn(link, events + [e1], e2);
    IpcpAgrees(p1);
    var p2 := Step(p1, e2).0;
    last := Comes(p2.ipcp.layer, CONF_ACK, p2.ipcp.id, []);
    IpcpOpens(p2);
    more := events + [e1] + [e2];
  }

  lemma UpAfterReport(mru: u16, magic: u32, askDns: bool, events: seq<Event>, last: Event)
    requires OpensIn(events) <= 1 && !last.Opens?
    requires var p := Run(NewLink(mru, magic, askDns), events).link; p.down && HasUp(Step(p, last).1)
    ensures UpAfterDown(Run(NewLink(mru, magic, askDns), events + [last]).log)
  {
    var t := Run(NewLink(mru, magic, askDns), events);
    RunsOn(NewLink(mru, magic, askDns), events, last);
    RunHolds(mru, magic, askDns, events);
    UpStepIsAlone(t.link, last);
    LogMisleads(t.log, Step(t.link, last).1);
  }

  lemma CloseReports(p: Link)
    requires Typed(p) && p.lcp.state.Initial?
    ensures Step(p, Closes(0)).0.down
  {
  }

  lemma EarlyClose(link: Link)
    requires Typed(link) && link.lcp.state.Initial?
    ensures Run(link, [Closes(0)]).link.down && OpensIn([Closes(0)]) == 0
  {
    RunsOn(link, [], Closes(0));
    assert [] + [Closes(0)] == [Closes(0)];
    CloseReports(link);
    assert Run(link, []).link == link;
  }

  /** It does follow one: on every link that is closed before it is opened,
      with a peer that agrees to all. */
  lemma UpAfterClose(mru: u16, magic: u32, askDns: bool) returns (events: seq<Event>)
    ensures events != [] && events[0] == Closes(0) && OpensIn(events) == 1
    ensures UpAfterDown(Run(NewLink(mru, magic, askDns), events).log)
  {
    var link := NewLink(mru, magic, askDns);
    EarlyClose(link);
    var open := LcpComesUp(link, [Closes(0)]);
    var more, last := IpcpComesUp(link, open);
    UpAfterReport(mru, magic, askDns, more, last);
    RunsOn(link, more, last);
    events := more + [last];
  }

  lemma RejectionReports(p: Link)
    requires IpcpAsks(p)
    ensures var ev := Comes(p.lcp.layer, PROTO_REJ, 0, Be16(IPCP_PROTOCOL));
            RejectsIpcp(ev) && Step(p, ev).0 == p.(down := true)
  {
    ControlReads(p.lcp.layer, PROTO_REJ, 0, Be16(IPCP_PROTOCOL));
    assert Be16(IPCP_PROTOCOL)[..2] == Be16(IPCP_PROTOCOL);
  }

  /** And with one that rejects IPCP and agrees to it all the same. */
  lemma UpAfterRejection(mru: u16, magic: u32, askDns: bool) returns (events: seq<Event>)
    ensures OpensIn(events) == 1 && exists ev :: ev in events && RejectsIpcp(ev)
    ensures UpAfterDown(Run(NewLink(mru, magic, askDns), events).log)
  {
    var link := NewLink(mru, magic, askDns);
    var open := LcpComesUp(link, []);
    var p := Run(link, open).link;
    var rejection := Comes(p.lcp.layer, PROTO_REJ, 0, Be16(IPCP_PROTOCOL));
    RunsOn(link, open, rejection);
    RejectionReports(p);
    var more, last := IpcpComesUp(link, open + [rejection]);
    UpAfterReport(mru, magic, askDns, more, last);
    RunsOn(link, more, last);
    events := more + [last];
    assert rejection in events;
  }

  /** A Configure-Nak that comes when a layer is over still gets a
      Configure-Request, if and only if fewer than 10 were taken. */
  lemma LateNakAsksAgain(f: Fsm, data: bytes, now: int)
    requires f.state.Closed? && ParseAll(data).Some?
    ensures SendsCode(f, OnNakOrRej(f, CONF_NAK, f.id, data, now).actions, CONF_REQ) <==> f.nakLoops < 2 * MAX_NAK_LOOPS
  {
    var asReject := f.nakLoops + 1 > MAX_NAK_LOOPS;
    var layer := Accept(f.layer, ParseAll(data).value, asReject);
    AcceptKeepsLayer(f.layer, ParseAll(data).value, asReject);
    if f.nakLoops < 2 * MAX_NAK_LOOPS {
      RequestFits(layer);
      assert OnNakOrRej(f, CONF_NAK, f.id, data, now).actions == [Send(Packet(layer, CONF_REQ, Next(f.id), EncodeAll(layer.Request())))];
      OnePacket(f, layer, CONF_REQ, Next(f.id), EncodeAll(layer.Request()));
    }
  }
}
