/** The option negotiation automaton of a PPP layer (RFC 1661 section 4), and
    what LCP and IPCP make of it. */
module PppFsm {
  import opened Bytes
  import opened PppOptions

  const LCP_PROTOCOL: u16 := 0xc021
  const IPCP_PROTOCOL: u16 := 0x8021

  const CONF_REQ: byte := 1
  const CONF_ACK: byte := 2
  const CONF_NAK: byte := 3
  const CONF_REJ: byte := 4
  const TERM_REQ: byte := 5
  const TERM_ACK: byte := 6
  const CODE_REJ: byte := 7

  const LCP_MRU: byte := 1
  const LCP_ACCM: byte := 2
  const LCP_MAGIC: byte := 5
  const IPCP_ADDRESS: byte := 3
  const IPCP_DNS1: byte := 129
  const IPCP_DNS2: byte := 131

  /** Seconds. */
  const RESTART_TIMER := 3
  const MAX_TERMINATE: nat := 2
  const LCP_MAX_CONFIGURE: nat := 40
  const IPCP_MAX_CONFIGURE: nat := 10
  const MAX_NAK_LOOPS: nat := 5
  const DEFAULT_MRU: u16 := 1500
  const UNSPECIFIED: u32 := 0

  datatype Addresses = Addresses(local: u32, peer: u32, dns: seq<u32>, mtu: u16)

  datatype Reason =
    | NoTerminateAck(lcp: bool) | NoAnswer(lcp: bool) | Terminated(lcp: bool) | LayerClosed(lcp: bool)
    | UnexpectedTerminateAck(lcp: bool) | CodeRejected(lcp: bool, code: byte) | Restarted(lcp: bool)
    | KeepsRefusing(lcp: bool) | LinkClosed | NoAddress | IpcpRejected

  datatype Action = Send(packet: bytes) | Deliver(packet: bytes) | Up(addresses: Addresses) | Down(reason: Reason)

  datatype Verdict = Ack | Nak(better: Opt) | Rej

  datatype Outcome = LayerUp | LayerDown(reason: Reason)

  datatype State = Initial | ReqSent | AckRcvd | AckSent | Opened | Closing | Closed {
    predicate Negotiating() { ReqSent? || AckRcvd? || AckSent? }
  }

  function Asked(ask: bool, kind: byte, data: bytes): (options: seq<Opt>)
    requires |data| <= 4
    ensures AllFit(options)
  {
    if ask then [Opt(kind, data)] else []
  }

  /** The first option of a kind. */
  function Find(options: seq<Opt>, kind: byte): (r: Option<Opt>)
    ensures r.Some? ==> r.value in options && r.value.kind == kind
    ensures r.None? ==> forall o :: o in options ==> o.kind != kind
  {
    if options == [] then None
    else if options[0].kind == kind then Some(options[0])
    else Find(options[1..], kind)
  }

  function MruOf(options: seq<Opt>): u16 {
    var found := Find(options, LCP_MRU);
    if found.Some? && found.value.U16().Some? then found.value.U16().value else DEFAULT_MRU
  }

  function AddressOf(options: seq<Opt>): Option<u32> {
    var found := Find(options, IPCP_ADDRESS);
    if found.Some? then found.value.U32() else None
  }

  /** What the layers differ in: their options. Addresses are 32-bit numbers. */
  datatype Layer =
    | Lcp(mru: u16, magic: u32, askMru: bool, askMagic: bool, peerMru: u16)
    | Ipcp(local: u32, peer: Option<u32>, dns1: Option<u32>, dns2: Option<u32>,
           askAddress: bool, askDns1: bool, askDns2: bool, linkMru: u16)
  {
    function Protocol(): u16 { if Lcp? then LCP_PROTOCOL else IPCP_PROTOCOL }

    /** The largest packet the peer accepts. */
    function PeerMru(): u16 { if Lcp? then peerMru else linkMru }

    function MaxConfigure(): nat { if Lcp? then LCP_MAX_CONFIGURE else IPCP_MAX_CONFIGURE }

    /** The options of our Configure-Request. */
    function Request(): (options: seq<Opt>)
      ensures AllFit(options)
    {
      match this
      case Lcp(_, _, _, _, _) => Asked(askMru, LCP_MRU, Be16(mru)) + Asked(askMagic, LCP_MAGIC, Be32(magic))
      case Ipcp(_, _, _, _, _, _, _, _) =>
        Asked(askAddress, IPCP_ADDRESS, Be32(local))
        + Asked(askDns1, IPCP_DNS1, Be32(if dns1.Some? then dns1.value else UNSPECIFIED))
        + Asked(askDns2, IPCP_DNS2, Be32(if dns2.Some? then dns2.value else UNSPECIFIED))
    }

    /** The peer suggests another value for one of our options. */
    function AcceptNak(o: Opt): Layer {
      match this
      case Lcp(_, _, _, _, _) =>
        if o.kind == LCP_MRU && o.U16().Some? && o.U16().value <= DEFAULT_MRU then this.(mru := o.U16().value)
        else if o.kind == LCP_MAGIC && o.U32().Some? then this.(magic := o.U32().value)
        else this
      case Ipcp(_, _, _, _, _, _, _, _) =>
        if o.U32().None? || o.U32().value == UNSPECIFIED then this
        else if o.kind == IPCP_ADDRESS then this.(local := o.U32().value)
        else if o.kind == IPCP_DNS1 then this.(dns1 := o.U32())
        else if o.kind == IPCP_DNS2 then this.(dns2 := o.U32())
        else this
    }

    /** The peer refuses one of our options. */
    function AcceptRej(o: Opt): Layer {
      match this
      case Lcp(_, _, _, _, _) =>
        if o.kind == LCP_MRU then this.(askMru := false)
        else if o.kind == LCP_MAGIC then this.(askMagic := false)
        else this
      case Ipcp(_, _, _, _, _, _, _, _) =>
        if o.kind == IPCP_ADDRESS then this.(askAddress := false)
        else if o.kind == IPCP_DNS1 then this.(askDns1 := false)
        else if o.kind == IPCP_DNS2 then this.(askDns2 := false)
        else this
    }

    /** What to answer to one option the peer requests; `random` is the magic
        number to suggest. */
    function Review(o: Opt, random: u32): Verdict {
      match this
      case Lcp(_, _, _, _, _) =>
        if o.kind == LCP_MRU && o.U16().Some? then Ack
        else if o.kind == LCP_MAGIC && o.U32() == Some(magic) then Nak(Opt(LCP_MAGIC, Be32(random)))
        else if (o.kind == LCP_ACCM || o.kind == LCP_MAGIC) && o.U32().Some? then Ack
        else Rej
      case Ipcp(_, _, _, _, _, _, _, _) =>
        if o.kind == IPCP_ADDRESS && o.U32().Some? && o.U32().value != UNSPECIFIED then Ack else Rej
    }

    /** The peer's request was acknowledged. */
    function PeerConfigured(options: seq<Opt>): Layer {
      if Lcp? then this.(peerMru := MruOf(options)) else this.(peer := AddressOf(options))
    }
  }

  datatype Fsm = Fsm(layer: Layer, state: State, id: byte, retransmits: nat, nakLoops: nat,
                     timer: Option<int>, peerOptions: seq<Opt>)

  /** What one call did: the automaton after, what to send, and whether the
      layer went up or down. */
  datatype Done = Done(fsm: Fsm, actions: seq<Action>, outcome: Option<Outcome>)

  function NewFsm(layer: Layer): Fsm {
    Fsm(layer, Initial, 0, 0, 0, None, [])
  }

  function Next(id: byte): byte { if id == 0xff then 0 else id + 1 }

  /** A control packet; its length fits 16 bits. */
  function Packet(layer: Layer, code: byte, id: byte, payload: bytes): bytes
    requires |payload| + 4 < 0x1_0000
  {
    Be16(layer.Protocol()) + [code, id] + Be16(|payload| + 4) + payload
  }

  lemma {:induction false} EncodeAppend(a: seq<Opt>, b: seq<Opt>)
    requires AllFit(a) && AllFit(b)
    ensures AllFit(a + b) && EncodeAll(a + b) == EncodeAll(a) + EncodeAll(b)
  {
    if a == [] {
      assert a + b == b;
    } else {
      EncodeAppend(a[1..], b);
      assert (a + b)[1..] == a[1..] + b;
    }
  }

  lemma RequestFits(layer: Layer)
    ensures |EncodeAll(layer.Request())| <= 18
  {
    match layer
    case Lcp(mru, magic, askMru, askMagic, _) =>
      EncodeAppend(Asked(askMru, LCP_MRU, Be16(mru)), Asked(askMagic, LCP_MAGIC, Be32(magic)));
    case Ipcp(local, _, dns1, dns2, askAddress, askDns1, askDns2, _) =>
      var a := Asked(askAddress, IPCP_ADDRESS, Be32(local));
      var b := Asked(askDns1, IPCP_DNS1, Be32(if dns1.Some? then dns1.value else UNSPECIFIED));
      var c := Asked(askDns2, IPCP_DNS2, Be32(if dns2.Some? then dns2.value else UNSPECIFIED));
      EncodeAppend(a, b);
      EncodeAppend(a + b, c);
  }

  function SendRequest(f: Fsm, now: int): Done {
    RequestFits(f.layer);
    Done(f.(timer := Some(now + RESTART_TIMER)), [Send(Packet(f.layer, CONF_REQ, f.id, EncodeAll(f.layer.Request())))], None)
  }

  function Start(f: Fsm, now: int): Done {
    SendRequest(f.(state := ReqSent, retransmits := f.layer.MaxConfigure(), nakLoops := 0, id := Next(f.id)), now)
  }

  function SendTerminate(f: Fsm, now: int): Done {
    Done(f.(id := Next(f.id), timer := Some(now + RESTART_TIMER)), [Send(Packet(f.layer, TERM_REQ, Next(f.id), []))], None)
  }

  /** Closing begun; whether a Terminate-Ack is to be waited for. */
  function Finish(f: Fsm, now: int): (Done, bool) {
    match f.state
    case Initial => (Done(f, [], None), false)
    case Closed => (Done(f, [], None), false)
    case Closing => (Done(f, [], None), true)
    case _ => (SendTerminate(f.(state := Closing, retransmits := MAX_TERMINATE), now), true)
  }

  function Ended(f: Fsm, actions: seq<Action>, reason: Reason): Done {
    Done(f.(state := Closed, timer := None), actions, Some(LayerDown(reason)))
  }

  predicate Due(f: Fsm, now: int) { f.timer.Some? && f.timer.value <= now }

  function Expire(f: Fsm, now: int): Done {
    if !Due(f, now) then Done(f, [], None)
    else if f.retransmits == 0 then
      Ended(f, [], if f.state.Closing? then NoTerminateAck(f.layer.Lcp?) else NoAnswer(f.layer.Lcp?))
    else
      var g := f.(retransmits := f.retransmits - 1);
      match f.state
      case Closing => SendTerminate(g, now)
      case AckRcvd =>
        var d := SendRequest(g, now);
        d.(fsm := d.fsm.(state := ReqSent))
      case ReqSent => SendRequest(g, now)
      case AckSent => SendRequest(g, now)
      case _ => Done(g.(timer := None), [], None)
  }

  /** How much of a rejected packet a reject holds. */
  function RejectLimit(f: Fsm): (n: nat)
    ensures n + 4 < 0x1_0000
  {
    if f.layer.PeerMru() < 6 then 0 else f.layer.PeerMru() - 6
  }

  function Truncated(b: bytes, n: nat): bytes {
    if |b| <= n then b else b[..n]
  }

  function OnCodeReject(f: Fsm, data: bytes): Done {
    var rejected := if data == [] then 0 else data[0];
    if CONF_REQ <= rejected <= CODE_REJ then Ended(f, [], CodeRejected(f.layer.Lcp?, rejected))
    else if f.state.AckRcvd? then Done(f.(state := ReqSent), [], None)
    else Done(f, [], None)
  }

  /** The refused options, and the better values for others, in order. */
  function Rejects(layer: Layer, options: seq<Opt>, randoms: nat -> u32): (refused: seq<Opt>)
    ensures AllFit(options) ==> AllFit(refused)
    ensures forall o :: o in refused ==> o in options
  {
    if options == [] then []
    else
      var n := |options| - 1;
      Rejects(layer, options[..n], randoms) + (if layer.Review(options[n], randoms(n)).Rej? then [options[n]] else [])
  }

  function Naks(layer: Layer, options: seq<Opt>, randoms: nat -> u32): (better: seq<Opt>)
    ensures AllFit(better)
  {
    if options == [] then []
    else
      var n := |options| - 1;
      var verdict := layer.Review(options[n], randoms(n));
      Naks(layer, options[..n], randoms) + (if verdict.Nak? then [verdict.better] else [])
  }

  function Answer(layer: Layer, options: seq<Opt>, randoms: nat -> u32): (byte, seq<Opt>) {
    var rejs, naks := Rejects(layer, options, randoms), Naks(layer, options, randoms);
    if rejs != [] then (CONF_REJ, rejs) else if naks != [] then (CONF_NAK, naks) else (CONF_ACK, options)
  }

  lemma {:induction false} RejectsFit(layer: Layer, options: seq<Opt>, randoms: nat -> u32)
    requires AllFit(options)
    ensures |EncodeAll(Rejects(layer, options, randoms))| <= |EncodeAll(options)|
  {
    if options != [] {
      var n := |options| - 1;
      var one := options[n];
      RejectsFit(layer, options[..n], randoms);
      assert options == options[..n] + [one];
      EncodeAppend(options[..n], [one]);
      EncodeAppend(Rejects(layer, options[..n], randoms), if layer.Review(one, randoms(n)).Rej? then [one] else []);
    }
  }

  lemma {:induction false} NaksFit(layer: Layer, options: seq<Opt>, randoms: nat -> u32)
    requires AllFit(options)
    ensures |EncodeAll(Naks(layer, options, randoms))| <= |EncodeAll(options)|
  {
    if options != [] {
      var n := |options| - 1;
      var one, verdict := options[n], layer.Review(options[n], randoms(n));
      NaksFit(layer, options[..n], randoms);
      assert options == options[..n] + [one];
      EncodeAppend(options[..n], [one]);
      EncodeAppend(Naks(layer, options[..n], randoms), if verdict.Nak? then [verdict.better] else []);
      if verdict.Nak? {
        assert [verdict.better][1..] == [one][1..] == [];
      }
    }
  }

  /** No answer is longer than the request. */
  lemma AnswerFits(layer: Layer, data: bytes, randoms: nat -> u32)
    requires ParseAll(data).Some?
    ensures AllFit(Answer(layer, ParseAll(data).value, randoms).1)
    ensures |EncodeAll(Answer(layer, ParseAll(data).value, randoms).1)| <= |data|
  {
    EncodesBack(data);
    RejectsFit(layer, ParseAll(data).value, randoms);
    NaksFit(layer, ParseAll(data).value, randoms);
  }

  /** A negotiating automaton after its answer to a Configure-Request. */
  function Answered(f: Fsm, agreed: bool, options: seq<Opt>): (Fsm, Option<Outcome>) {
    if !agreed then (if f.state.AckSent? then f.(state := ReqSent) else f, None)
    else
      var g := f.(layer := f.layer.PeerConfigured(options), peerOptions := options);
      if f.state.AckRcvd? then (g.(state := Opened, timer := None), Some(LayerUp))
      else (g.(state := AckSent), None)
  }

  function OnRequest(f: Fsm, id: byte, data: bytes, randoms: nat -> u32): Done
    requires |data| + 4 < 0x1_0000
  {
    match ParseAll(data)
    case None => Done(f, [], None)
    case Some(options) =>
      if f.state.Opened? then
        (if options == f.peerOptions then Done(f, [Send(Packet(f.layer, CONF_ACK, id, data))], None)
         else Ended(f, [], Restarted(f.layer.Lcp?)))
      else if f.state.Initial? || f.state.Closed? then Done(f, [], None)
      else
        AnswerFits(f.layer, data, randoms);
        var (code, answer) := Answer(f.layer, options, randoms);
        var (g, outcome) := Answered(f, code == CONF_ACK, options);
        Done(g, [Send(Packet(f.layer, code, id, EncodeAll(answer)))], outcome)
  }

  function OnAck(f: Fsm, id: byte): Done {
    if id != f.id then Done(f, [], None)
    else match f.state
      case ReqSent => Done(f.(state := AckRcvd), [], None)
      case AckSent => Done(f.(state := Opened, timer := None), [], Some(LayerUp))
      case _ => Done(f, [], None)
  }

  function Accept(layer: Layer, options: seq<Opt>, asReject: bool): Layer {
    if options == [] then layer
    else
      var n := |options| - 1;
      var before := Accept(layer, options[..n], asReject);
      if asReject then before.AcceptRej(options[n]) else before.AcceptNak(options[n])
  }

  function OnNakOrRej(f: Fsm, code: byte, id: byte, data: bytes, now: int): Done {
    if id != f.id then Done(f, [], None)
    else match ParseAll(data)
      case None => Done(f, [], None)
      case Some(options) =>
        if f.state.Opened? then Done(f, [], None)
        else
          var loops := f.nakLoops + 1;
          if loops > 2 * MAX_NAK_LOOPS then Ended(f.(nakLoops := loops), [], KeepsRefusing(f.layer.Lcp?))
          else
            var layer := Accept(f.layer, options, code == CONF_REJ || loops > MAX_NAK_LOOPS);
            SendRequest(f.(layer := layer, nakLoops := loops, state := if f.state.AckRcvd? then ReqSent else f.state, id := Next(f.id)), now)
  }

  /** One packet of the layer's protocol; `randoms` are the magic numbers to
      suggest, option by option. */
  function Handle(f: Fsm, code: byte, id: byte, data: bytes, now: int, randoms: nat -> u32): Done
    requires |data| + 4 < 0x1_0000
  {
    if f.state.Closing? && code != TERM_ACK && code != TERM_REQ then Done(f, [], None)
    else if code == CONF_REQ then OnRequest(f, id, data, randoms)
    else if code == CONF_ACK then OnAck(f, id)
    else if code == CONF_NAK || code == CONF_REJ then OnNakOrRej(f, code, id, data, now)
    else if code == TERM_REQ then
      Ended(f, [Send(Packet(f.layer, TERM_ACK, id, []))], Terminated(f.layer.Lcp?))
    else if code == TERM_ACK then
      (match f.state
       case Closing => Ended(f, [], LayerClosed(f.layer.Lcp?))
       case Opened => Ended(f, [], UnexpectedTerminateAck(f.layer.Lcp?))
       case _ => Done(f, [], None))
    else if code == CODE_REJ then OnCodeReject(f, data)
    else
      Done(f.(id := Next(f.id)),
           [Send(Packet(f.layer, CODE_REJ, Next(f.id), Truncated([code, id] + Be16(|data| + 4) + data, RejectLimit(f))))], None)
  }
}
