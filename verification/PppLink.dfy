/** The PPP link: LCP, then IPCP, then IP packets. */
module PppLink {
  import opened Bytes
  import opened PppOptions
  import opened PppFsm

  const IP_PROTOCOL: u16 := 0x0021
  const PROTO_REJ: byte := 8
  const ECHO_REQ: byte := 9
  const ECHO_REPLY: byte := 10
  const DISCARD_REQ: byte := 11
  const IDENTIFICATION: byte := 12
  const TIME_REMAINING: byte := 13

  /** 10.64.64.64. */
  const DEFAULT_PEER: u32 := 0x0a40_4040

  datatype Link = Link(lcp: Fsm, ipcp: Fsm, down: bool) {
    predicate IsUp() { ipcp.state.Opened? }

    function NextTimeout(): Option<int> {
      match (lcp.timer, ipcp.timer)
      case (Some(a), Some(b)) => Some(if a < b then a else b)
      case (Some(a), None) => Some(a)
      case (None, b) => b
    }
  }

  function NewLink(mru: u16, magic: u32, askDns: bool): Link {
    Link(NewFsm(Lcp(mru, magic, true, true, DEFAULT_MRU)),
         NewFsm(Ipcp(UNSPECIFIED, None, None, None, true, askDns, askDns, DEFAULT_MRU)), false)
  }

  predicate Typed(p: Link) { p.lcp.layer.Lcp? && p.ipcp.layer.Ipcp? }

  function ReportDown(p: Link, reason: Reason): (r: (Link, seq<Action>))
    ensures Typed(p) ==> Typed(r.0)
  {
    if p.down then (p, []) else (p.(down := true), [Down(reason)])
  }

  /** `more` after `before`. */
  function Then(before: seq<Action>, more: (Link, seq<Action>)): (Link, seq<Action>) {
    (more.0, before + more.1)
  }

  function OpenLink(p: Link, now: int): (r: (Link, seq<Action>))
    ensures Typed(p) ==> Typed(r.0)
  {
    var d := Start(p.lcp, now);
    (p.(lcp := d.fsm), d.actions)
  }

  function CloseLcp(p: Link, now: int): (r: (Link, seq<Action>))
    ensures Typed(p) ==> Typed(r.0)
  {
    var d := Finish(p.lcp, now).0;
    (p.(lcp := d.fsm), d.actions)
  }

  function CloseLink(p: Link, now: int): (r: (Link, seq<Action>))
    ensures Typed(p) ==> Typed(r.0)
  {
    var q := p.(ipcp := p.ipcp.(state := Closed, timer := None));
    var (closing, actions) := CloseLcp(q, now);
    if Finish(q.lcp, now).1 then (closing, actions) else Then(actions, ReportDown(closing, LinkClosed))
  }

  /** IPCP starts with what LCP negotiated. */
  function StartIpcp(p: Link, now: int): (r: (Link, seq<Action>))
    requires p.ipcp.layer.Ipcp?
    ensures Typed(p) ==> Typed(r.0)
  {
    var d := Start(p.ipcp.(layer := p.ipcp.layer.(linkMru := p.lcp.layer.PeerMru())), now);
    (p.(ipcp := d.fsm), d.actions)
  }

  function OnLcp(p: Link, outcome: Outcome, now: int): (r: (Link, seq<Action>))
    requires Typed(p)
    ensures Typed(r.0)
  {
    match outcome
    case LayerUp => StartIpcp(p, now)
    case LayerDown(reason) => ReportDown(p, reason)
  }

  function Specified(a: Option<u32>): seq<u32> {
    if a.Some? && a.value != UNSPECIFIED then [a.value] else []
  }

  function AddressesOf(p: Link): Addresses
    requires Typed(p)
  {
    var ipcp := p.ipcp.layer;
    Addresses(ipcp.local, if ipcp.peer.Some? then ipcp.peer.value else DEFAULT_PEER,
              Specified(ipcp.dns1) + Specified(ipcp.dns2),
              if p.lcp.layer.peerMru < p.lcp.layer.mru then p.lcp.layer.peerMru else p.lcp.layer.mru)
  }

  function OnIpcp(p: Link, outcome: Outcome, now: int): (r: (Link, seq<Action>))
    requires Typed(p)
    ensures Typed(r.0)
  {
    match outcome
    case LayerUp =>
      if p.ipcp.layer.local == UNSPECIFIED then
        var (q, actions) := CloseLcp(p.(ipcp := p.ipcp.(state := Closed)), now);
        Then(actions, ReportDown(q, NoAddress))
      else (p, [Up(AddressesOf(p))])
    case LayerDown(reason) =>
      var (q, actions) := if p.lcp.state.Opened? then CloseLcp(p, now) else (p, []);
      Then(actions, ReportDown(q, reason))
  }

  /** What LCP did, and what follows from it. */
  function AfterLcp(p: Link, d: Done, now: int): (r: (Link, seq<Action>))
    requires Typed(p) && d.fsm.layer.Lcp?
    ensures Typed(r.0)
  {
    var q := p.(lcp := d.fsm);
    if d.outcome.None? then (q, d.actions) else Then(d.actions, OnLcp(q, d.outcome.value, now))
  }

  function AfterIpcp(p: Link, d: Done, now: int): (r: (Link, seq<Action>))
    requires Typed(p) && d.fsm.layer.Ipcp?
    ensures Typed(r.0)
  {
    var q := p.(ipcp := d.fsm);
    if d.outcome.None? then (q, d.actions) else Then(d.actions, OnIpcp(q, d.outcome.value, now))
  }

  function Timeout(p: Link, now: int): (r: (Link, seq<Action>))
    requires Typed(p)
    ensures Typed(r.0)
  {
    var (q, actions) := AfterLcp(p, Expire(p.lcp, now), now);
    Then(actions, AfterIpcp(q, Expire(q.ipcp, now), now))
  }

  function EncodeIp(packet: bytes): bytes {
    Be16(IP_PROTOCOL) + packet
  }

  function Dropped(data: bytes, n: nat): bytes {
    if |data| < n then [] else data[n..]
  }

  /** LCP has a few more codes than the automaton. */
  function LcpHandle(f: Fsm, code: byte, id: byte, data: bytes, now: int, randoms: nat -> u32): Done
    requires f.layer.Lcp? && |data| + 4 < 0x1_0000
  {
    if code == ECHO_REQ then
      Done(f, if f.state.Opened? then [Send(Packet(f.layer, ECHO_REPLY, id, Be32(f.layer.magic) + Dropped(data, 4)))] else [], None)
    else if code in {ECHO_REPLY, DISCARD_REQ, IDENTIFICATION, TIME_REMAINING} then Done(f, [], None)
    else if code == PROTO_REJ then
      Done(f, [], if |data| >= 2 && FromBe16(data[..2]) == IPCP_PROTOCOL then Some(LayerDown(IpcpRejected)) else None)
    else Handle(f, code, id, data, now, randoms)
  }

  /** Code, identifier and data of a control packet. */
  function ParseControl(payload: bytes): (r: Option<(byte, byte, bytes)>)
    ensures r.Some? ==> |r.value.2| + 4 < 0x1_0000
  {
    if |payload| < 4 then None
    else
      var length := FromBe16(payload[2..4]);
      if length < 4 || length > |payload| then None else Some((payload[0], payload[1], payload[4..length]))
  }

  lemma {:induction false} AcceptKeepsLayer(layer: Layer, options: seq<Opt>, asReject: bool)
    ensures Accept(layer, options, asReject).Lcp? == layer.Lcp?
  {
    if options != [] {
      AcceptKeepsLayer(layer, options[..|options| - 1], asReject);
    }
  }

  lemma HandleKeepsLayer(f: Fsm, code: byte, id: byte, data: bytes, now: int, randoms: nat -> u32)
    requires |data| + 4 < 0x1_0000
    ensures Handle(f, code, id, data, now, randoms).fsm.layer.Lcp? == f.layer.Lcp?
  {
    match ParseAll(data)
    case None =>
    case Some(options) => AcceptKeepsLayer(f.layer, options, code == CONF_REJ || f.nakLoops + 1 > MAX_NAK_LOOPS);
  }

  function Control(p: Link, toLcp: bool, payload: bytes, now: int, randoms: nat -> u32): (r: (Link, seq<Action>))
    requires Typed(p)
    ensures Typed(r.0)
  {
    match ParseControl(payload)
    case None => (p, [])
    case Some((code, id, data)) =>
      HandleKeepsLayer(p.ipcp, code, id, data, now, randoms);
      HandleKeepsLayer(p.lcp, code, id, data, now, randoms);
      if toLcp then AfterLcp(p, LcpHandle(p.lcp, code, id, data, now, randoms), now)
      else AfterIpcp(p, Handle(p.ipcp, code, id, data, now, randoms), now)
  }

  function Input(p: Link, packet: bytes, now: int, randoms: nat -> u32): (r: (Link, seq<Action>))
    requires Typed(p)
    ensures Typed(r.0)
  {
    if |packet| < 2 then (p, [])
    else
      var protocol, payload := FromBe16(packet[..2]), packet[2..];
      if protocol == IP_PROTOCOL then (p, if p.IsUp() then [Deliver(payload)] else [])
      else if protocol == LCP_PROTOCOL then Control(p, true, payload, now, randoms)
      else if protocol == IPCP_PROTOCOL then
        (if p.lcp.state.Opened? then Control(p, false, payload, now, randoms) else (p, []))
      else if p.lcp.state.Opened? then
        (p.(lcp := p.lcp.(id := Next(p.lcp.id))),
         [Send(Packet(p.lcp.layer, PROTO_REJ, Next(p.lcp.id), Truncated(packet, RejectLimit(p.lcp))))])
      else (p, [])
  }
}
