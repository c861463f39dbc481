/** The vici client: packets out of a stream of chunks, one command at a time,
    events kept for later, and futures dropped at any await. */
module ViciClient {
  import opened Bytes
  import opened ViciMessage
  import opened ViciPacket

  datatype Raised = Raised(name: bytes, message: Tree)

  /** What the client waits for; a dropped future leaves it Idle. */
  datatype Phase = Idle | Asking(command: bool, callback: bool) | Listening

  datatype Client = Client(buf: bytes, pending: seq<Raised>, poisoned: bool, phase: Phase)

  /** What came of one look at the buffer. */
  datatype Outcome =
    | Nothing
    | Answered(packet: Packet)
    | Unexpected(packet: Packet)
    | Queued(event: Raised)
    | Handed(event: Raised)
    | Delivered(event: Raised)
    | Broken(error: Error)

  function ParseBuffered(buf: bytes): Result<Option<(Packet, bytes)>> {
    if |buf| < 4 then Ok(None)
    else
      var length := FromBe32(buf[..4]);
      if length == 0 || length > MESSAGE_SIZE_MAX then Err(TooLong)
      else if |buf| < 4 + length then Ok(None)
      else
        var packet :- DecodePacket(buf[4..4 + length]);
        Ok(Some((packet, buf[4 + length..])))
  }

  predicate IsRequest(p: Packet) { p.CmdRequest? || p.EventRegister? || p.EventUnregister? }

  predicate Answers(p: Packet, command: bool) {
    if command then p.CmdResponse? || p.CmdUnknown? else p.EventConfirm? || p.EventUnknown?
  }

  /** A command or a registration begins; the bytes to write, unless the
      client is poisoned or the request cannot be encoded. */
  function Begin(c: Client, p: Packet, callback: bool): (Client, Option<bytes>) {
    if c.poisoned || EncodePacket(p).Err? then (c, None)
    else (c.(poisoned := true, phase := Asking(p.CmdRequest?, callback)), Some(EncodePacket(p).value))
  }

  /** A request that ended, with an answer or an error, poisons no more. */
  function Ended(c: Client): Client {
    c.(poisoned := if c.phase.Asking? then false else c.poisoned, phase := Idle)
  }

  function TakeEvent(c: Client, event: Raised): (Client, Outcome) {
    if !c.phase.Asking? then (c.(phase := Idle), Delivered(event))
    else if c.phase.callback then (c, Handed(event))
    else (c.(pending := c.pending + [event]), Queued(event))
  }

  function TakePacket(c: Client, p: Packet): (Client, Outcome) {
    if p.Event? then TakeEvent(c, Raised(p.name, p.message))
    else (Ended(c), if c.phase.Asking? && Answers(p, c.phase.command) then Answered(p) else Unexpected(p))
  }

  /** The next packet in the buffer, if it is whole. */
  function Take(c: Client): (Client, Outcome) {
    match ParseBuffered(c.buf)
    case Err(error) => (Ended(c), Broken(error))
    case Ok(None) => (c, Nothing)
    case Ok(Some((p, rest))) => TakePacket(c.(buf := rest), p)
  }

  /** Waiting for an event begins: one kept before, or the next packet. */
  function Listen(c: Client): (Client, Option<Raised>) {
    if c.poisoned then (c, None)
    else if c.pending != [] then (c.(pending := c.pending[1..]), Some(c.pending[0]))
    else (c.(phase := Listening), None)
  }

  class ViciClient {
    var buf: bytes
    var pending: seq<Raised>
    var poisoned: bool
    var phase: Phase

    function View(): Client
      reads this
    {
      Client(buf, pending, poisoned, phase)
    }

    constructor ()
      ensures View() == Client([], [], false, Idle)
    {
      buf, pending, poisoned, phase := [], [], false, Idle;
    }

    method Start(p: Packet, callback: bool) returns (sent: Option<bytes>)
      modifies this
      ensures (View(), sent) == Begin(old(View()), p, callback)
    {
      if poisoned {
        return None;
      }
      var encoded := EncodePacket(p);
      if encoded.Err? {
        return None;
      }
      poisoned := true;
      phase := Asking(p.CmdRequest?, callback);
      sent := Some(encoded.value);
    }

    method Receive(chunk: bytes)
      modifies this
      ensures View() == old(View()).(buf := old(buf) + chunk)
    {
      buf := buf + chunk;
    }

    method NextPacket() returns (r: Result<Option<Packet>>)
      modifies this`buf
      ensures match ParseBuffered(old(buf))
              case Ok(Some((p, rest))) => r == Ok(Some(p)) && buf == rest
              case Ok(None) => r == Ok(None) && buf == old(buf)
              case Err(error) => r == Err(error) && buf == old(buf)
    {
      if |buf| < 4 {
        return Ok(None);
      }
      var length := FromBe32(buf[..4]);
      if length == 0 || length > MESSAGE_SIZE_MAX {
        return Err(TooLong);
      }
      if |buf| < 4 + length {
        return Ok(None);
      }
      var packet := DecodePacket(buf[4..4 + length]);
      if packet.Err? {
        return Err(packet.error);
      }
      buf := buf[4 + length..];
      r := Ok(Some(packet.value));
    }

    method HandlePacket() returns (outcome: Outcome)
      modifies this
      ensures (View(), outcome) == Take(old(View()))
    {
      var r := NextPacket();
      if r.Err? {
        if phase.Asking? {
          poisoned := false;
        }
        phase := Idle;
        return Broken(r.error);
      }
      if r.value.None? {
        return Nothing;
      }
      var p := r.value.value;
      if p.Event? {
        var event := Raised(p.name, p.message);
        if !phase.Asking? {
          phase := Idle;
          return Delivered(event);
        }
        if phase.callback {
          return Handed(event);
        }
        pending := pending + [event];
        return Queued(event);
      }
      outcome := if phase.Asking? && Answers(p, phase.command) then Answered(p) else Unexpected(p);
      if phase.Asking? {
        poisoned := false;
      }
      phase := Idle;
    }

    method NextEvent() returns (event: Option<Raised>)
      modifies this
      ensures (View(), event) == Listen(old(View()))
    {
      if poisoned {
        return None;
      }
      if pending != [] {
        event := Some(pending[0]);
        pending := pending[1..];
        return;
      }
      phase := Listening;
      event := None;
    }
  }

  // ---- packets out of a stream -----------------------------------------------------------

  /** A packet that can be sent and taken. */
  predicate Good(p: Packet) { EncodePacket(p).Ok? && Shallow(p) }

  predicate AllGood(packets: seq<Packet>) {
    forall i :: 0 <= i < |packets| ==> Good(packets[i])
  }

  function Framed(packets: seq<Packet>): bytes
    requires AllGood(packets)
  {
    if packets == [] then [] else EncodePacket(packets[0]).value + Framed(packets[1..])
  }

  lemma FramedFirst(packets: seq<Packet>)
    requires AllGood(packets) && packets != []
    ensures AllGood(packets[1..]) && Framed(packets) == EncodePacket(packets[0]).value + Framed(packets[1..])
  {
  }

  lemma {:induction false} FramedAppend(a: seq<Packet>, b: seq<Packet>)
    requires AllGood(a) && AllGood(b)
    ensures AllGood(a + b) && Framed(a + b) == Framed(a) + Framed(b)
  {
    if a == [] {
      assert a + b == b;
    } else {
      FramedAppend(a[1..], b);
      assert (a + b)[1..] == a[1..] + b;
      FramedFirst(a);
      FramedFirst(a + b);
      Grouped(EncodePacket(a[0]).value, Framed(a[1..]), Framed(b));
    }
  }

  lemma FirstFrame(buf: bytes, wire: bytes, first: bytes, rest: bytes)
    requires buf + wire == first + rest && 4 <= |buf| && 4 <= |first|
    ensures buf[..4] == first[..4]
    ensures |buf| >= |first| ==> buf[4..|first|] == first[4..] && buf[|first|..] + wire == rest
  {
    var all := buf + wire;
    assert buf[..4] == all[..4] == first[..4];
    if |buf| >= |first| {
      assert buf[4..|first|] == all[4..|first|] == first[4..];
      assert buf[|first|..] + wire == all[|first|..] == rest;
    }
  }

  lemma FrameParses(buf: bytes, wire: bytes, first: bytes, rest: bytes, p: Packet)
    requires buf + wire == first + rest && |buf| >= 4 && |first| >= 5
    requires FromBe32(first[..4]) == |first| - 4 <= MESSAGE_SIZE_MAX && DecodePacket(first[4..]) == Ok(p)
    ensures var r := ParseBuffered(buf);
            || r == Ok(None)
            || (r.Ok? && r.value.Some? && r.value.value.0 == p && r.value.value.1 + wire == rest)
  {
    FirstFrame(buf, wire, first, rest);
  }

  /** Any part of a stream of packets: the first one, once it is whole. */
  lemma TakesFirst(buf: bytes, wire: bytes, unread: seq<Packet>)
    requires AllGood(unread) && buf + wire == Framed(unread)
    ensures var r := ParseBuffered(buf);
            || (r == Ok(None) && (unread == [] ==> buf == []))
            || (r.Ok? && r.value.Some? && unread != [] && r.value.value.0 == unread[0]
                && r.value.value.1 + wire == Framed(unread[1..]))
  {
    if unread != [] && |buf| >= 4 {
      PacketsSurvive(unread[0]);
      FrameParses(buf, wire, EncodePacket(unread[0]).value, Framed(unread[1..]), unread[0]);
    }
  }

  /** All whole packets in a buffer. */
  function Drain(buf: bytes): (seq<Packet>, bytes)
    decreases |buf|
  {
    match ParseBuffered(buf)
    case Ok(Some((p, rest))) =>
      var (more, left) := Drain(rest);
      ([p] + more, left)
    case _ => ([], buf)
  }

  /** All whole packets, chunk by chunk. */
  function DrainChunks(buf: bytes, chunks: seq<bytes>): (seq<Packet>, bytes)
    decreases |chunks|
  {
    var (packets, left) := Drain(buf);
    if chunks == [] then (packets, left)
    else
      var (more, end) := DrainChunks(left + chunks[0], chunks[1..]);
      (packets + more, end)
  }

  lemma ParseMore(buf: bytes, more: bytes)
    ensures match ParseBuffered(buf)
            case Ok(Some((p, rest))) => ParseBuffered(buf + more) == Ok(Some((p, rest + more)))
            case Ok(None) => true
            case Err(error) => ParseBuffered(buf + more) == Err(error)
  {
    if |buf| >= 4 {
      var all := buf + more;
      assert all[..4] == buf[..4];
      var length: int := FromBe32(buf[..4]);
      if |buf| >= 4 + length {
        assert all[4..4 + length] == buf[4..4 + length];
        assert all[4 + length..] == buf[4 + length..] + more;
      }
    }
  }

  lemma DrainFirst(buf: bytes, p: Packet, rest: bytes, packets: seq<Packet>, left: bytes)
    requires ParseBuffered(buf) == Ok(Some((p, rest))) && Drain(rest) == (packets, left)
    ensures Drain(buf) == ([p] + packets, left)
  {
  }

  lemma DrainNothing(buf: bytes)
    requires !(ParseBuffered(buf).Ok? && ParseBuffered(buf).value.Some?)
    ensures Drain(buf) == ([], buf)
  {
  }

  lemma Regrouped(p: Packet, packets: seq<Packet>, after: seq<Packet>)
    ensures [p] + packets + after == [p] + (packets + after)
  {
  }

  /** A packet first in two buffers, whose other packets are known. */
  lemma DrainBoth(buf: bytes, all: bytes, p: Packet, rest: bytes, tail: bytes, packets: seq<Packet>, left: bytes,
                  after: seq<Packet>, end: bytes)
    requires ParseBuffered(buf) == Ok(Some((p, rest))) && ParseBuffered(all) == Ok(Some((p, tail)))
    requires Drain(rest) == (packets, left) && Drain(tail) == (packets + after, end)
    ensures Drain(buf) == ([p] + packets, left) && Drain(all) == ([p] + packets + after, end)
  {
    DrainFirst(buf, p, rest, packets, left);
    DrainFirst(all, p, tail, packets + after, end);
    Regrouped(p, packets, after);
  }

  lemma {:induction false} DrainMore(buf: bytes, more: bytes)
    ensures var (packets, left) := Drain(buf);
            var (after, end) := Drain(left + more);
            Drain(buf + more) == (packets + after, end)
    decreases |buf|
  {
    ParseMore(buf, more);
    match ParseBuffered(buf)
    case Ok(Some((p, rest))) =>
      DrainMore(rest, more);
      var (packets, left) := Drain(rest);
      var (after, end) := Drain(left + more);
      DrainBoth(buf, buf + more, p, rest, rest + more, packets, left, after, end);
    case _ =>
      DrainNothing(buf);
      assert [] + Drain(buf + more).0 == Drain(buf + more).0;
  }

  /** However a stream of bytes is cut in chunks, the same packets come out of
      it and the same bytes are left, whatever the bytes. */
  lemma {:induction false} ChunksDoNotMatter(buf: bytes, chunks: seq<bytes>)
    ensures DrainChunks(buf, chunks) == Drain(buf + Joined(chunks))
    decreases |chunks|
  {
    var (packets, left) := Drain(buf);
    if chunks == [] {
      assert buf + [] == buf;
    } else {
      ChunksDoNotMatter(left + chunks[0], chunks[1..]);
      assert left + chunks[0] + Joined(chunks[1..]) == left + Joined(chunks);
      DrainMore(buf, Joined(chunks));
    }
  }

  lemma FirstDrained(packets: seq<Packet>)
    requires AllGood(packets) && packets != []
    ensures AllGood(packets[1..]) && ParseBuffered(Framed(packets)) == Ok(Some((packets[0], Framed(packets[1..]))))
  {
    var first := EncodePacket(packets[0]).value;
    PacketsSurvive(packets[0]);
    FirstFrame(Framed(packets), [], first, Framed(packets[1..]));
    assert Framed(packets) + [] == Framed(packets);
  }

  /** And out of the packets a daemon sends come just these. */
  lemma {:induction false} DrainsAsSent(packets: seq<Packet>)
    requires AllGood(packets)
    ensures Drain(Framed(packets)) == (packets, [])
    decreases |packets|
  {
    if packets != [] {
      FirstDrained(packets);
      DrainsAsSent(packets[1..]);
      DrainFirst(Framed(packets), packets[0], Framed(packets[1..]), packets[1..], []);
      assert [packets[0]] + packets[1..] == packets;
    }
  }

  // ---- a client and a daemon ---------------------------------------------------------------

  /** The packets the daemon sent that the client has not taken, the part of
      their bytes on its way, and what both did: the requests, the daemon's
      answers, what the client returned for them, the events sent, and the
      events taken, each with whether a callback got it. `returned` are those
      that came out as next events. */
  datatype World = World(client: Client, unread: seq<Packet>, wire: bytes,
                         asked: seq<Packet>, answers: seq<Packet>, results: seq<Packet>,
                         sent: seq<Raised>, taken: seq<(Raised, bool)>, returned: seq<Raised>, astray: bool)

  datatype Event =
    | Asks(p: Packet, callback: bool)
    | Listens
    | Drops
    | Arrives(n: nat)
    | Looks
    | DaemonAnswers(p: Packet)
    | DaemonRaises(event: Raised)

  function AsPacket(event: Raised): Packet { Packet.Event(event.name, event.message) }

  /** What may happen next, with a daemon that answers each request once, in
      its kind, after it has come in. */
  predicate Possible(w: World, ev: Event) {
    match ev
    case Asks(p, _) => w.client.phase.Idle? && IsRequest(p)
    case Listens => w.client.phase.Idle?
    case Drops => !w.client.phase.Idle?
    case Arrives(n) => !w.client.phase.Idle? && 0 < n <= |w.wire| && ParseBuffered(w.client.buf) == Ok(None)
    case Looks => !w.client.phase.Idle?
    case DaemonAnswers(p) =>
      && Good(p) && |w.answers| < |w.asked| && Answers(p, w.asked[|w.answers|].CmdRequest?)
    case DaemonRaises(event) => Good(AsPacket(event))
  }

  function Sends(w: World, p: Packet): World
    requires EncodePacket(p).Ok?
  {
    w.(unread := w.unread + [p], wire := w.wire + EncodePacket(p).value)
  }

  function Rest(unread: seq<Packet>): seq<Packet> {
    if unread == [] then [] else unread[1..]
  }

  function Noted(v: World, outcome: Outcome): World {
    match outcome
    case Nothing => v
    case Answered(p) => v.(unread := Rest(v.unread), results := v.results + [p])
    case Unexpected(p) => v.(unread := Rest(v.unread), astray := true)
    case Queued(event) => v.(unread := Rest(v.unread), taken := v.taken + [(event, false)])
    case Handed(event) => v.(unread := Rest(v.unread), taken := v.taken + [(event, true)])
    case Delivered(event) => v.(unread := Rest(v.unread), taken := v.taken + [(event, false)], returned := v.returned + [event])
    case Broken(_) => v.(astray := true)
  }

  function Looked(w: World): World {
    var (c, outcome) := Take(w.client);
    Noted(w.(client := c), outcome)
  }

  function Step(w: World, ev: Event): World
    requires Possible(w, ev)
  {
    match ev
    case Asks(p, callback) =>
      var (c, written) := Begin(w.client, p, callback);
      if written.None? then w else w.(client := c, asked := w.asked + [p])
    case Listens =>
      var (c, event) := Listen(w.client);
      if event.None? then w.(client := c) else w.(client := c, returned := w.returned + [event.value])
    case Drops => w.(client := w.client.(phase := Idle))
    case Arrives(n) => w.(client := w.client.(buf := w.client.buf + w.wire[..n]), wire := w.wire[n..])
    case Looks => Looked(w)
    case DaemonAnswers(p) => Sends(w, p).(answers := w.answers + [p])
    case DaemonRaises(event) => Sends(w, AsPacket(event)).(sent := w.sent + [event])
  }

  ghost predicate Reaches(from: World, events: seq<Event>, to: World)
    decreases |events|
  {
    if events == [] then from == to
    else
      var k := |events| - 1;
      exists mid: World :: Reaches(from, events[..k], mid) && Possible(mid, events[k]) && to == Step(mid, events[k])
  }

  const NEW := World(Client([], [], false, Idle), [], [], [], [], [], [], [], [], false)

  // ---- what every step keeps -------------------------------------------------------------

  /** The answers among packets, and the events. */
  function AnswersIn(packets: seq<Packet>): seq<Packet> {
    if packets == [] then []
    else AnswersIn(packets[..|packets| - 1]) + if packets[|packets| - 1].Event? then [] else [packets[|packets| - 1]]
  }

  function EventsIn(packets: seq<Packet>): seq<Raised> {
    if packets == [] then []
    else
      var p := packets[|packets| - 1];
      EventsIn(packets[..|packets| - 1]) + if p.Event? then [Raised(p.name, p.message)] else []
  }

  function Firsts(taken: seq<(Raised, bool)>): seq<Raised> {
    seq(|taken|, i requires 0 <= i < |taken| => taken[i].0)
  }

  /** The events no callback got. */
  function Kept(taken: seq<(Raised, bool)>): seq<Raised> {
    if taken == [] then []
    else Kept(taken[..|taken| - 1]) + if taken[|taken| - 1].1 then [] else [taken[|taken| - 1].0]
  }

  predicate StreamHolds(w: World) {
    AllGood(w.unread) && w.client.buf + w.wire == Framed(w.unread)
  }

  /** The daemon's answers are those the client returned and those it has not
      taken; a client that may be used waits for none. */
  predicate AnswersHold(w: World) {
    && !w.astray
    && w.results + AnswersIn(w.unread) == w.answers
    && |w.answers| <= |w.asked| <= |w.results| + 1
    && (w.client.poisoned <==> |w.asked| == |w.results| + 1)
    && (w.client.phase.Asking? ==> w.client.poisoned && w.client.phase.command == w.asked[|w.asked| - 1].CmdRequest?)
    && (w.client.phase.Listening? ==> !w.client.poisoned)
    && (forall i :: 0 <= i < |w.answers| ==> Answers(w.answers[i], w.asked[i].CmdRequest?))
  }

  predicate EventsHold(w: World) {
    && Firsts(w.taken) + EventsIn(w.unread) == w.sent
    && Kept(w.taken) == w.returned + w.client.pending
    && (w.client.phase.Listening? ==> w.client.pending == [])
  }

  predicate Inv(w: World) { StreamHolds(w) && AnswersHold(w) && EventsHold(w) }

  lemma {:induction false} AnswersJoin(a: seq<Packet>, b: seq<Packet>)
    ensures AnswersIn(a + b) == AnswersIn(a) + AnswersIn(b)
    decreases |b|
  {
    if b == [] {
      assert a + b == a;
    } else {
      AnswersJoin(a, b[..|b| - 1]);
      assert (a + b)[..|a + b| - 1] == a + b[..|b| - 1];
    }
  }

  lemma {:induction false} EventsJoin(a: seq<Packet>, b: seq<Packet>)
    ensures EventsIn(a + b) == EventsIn(a) + EventsIn(b)
    decreases |b|
  {
    if b == [] {
      assert a + b == a;
    } else {
      EventsJoin(a, b[..|b| - 1]);
      assert (a + b)[..|a + b| - 1] == a + b[..|b| - 1];
    }
  }

  lemma InAppend(packets: seq<Packet>, p: Packet)
    ensures AnswersIn(packets + [p]) == AnswersIn(packets) + if p.Event? then [] else [p]
    ensures EventsIn(packets + [p]) == EventsIn(packets) + if p.Event? then [Raised(p.name, p.message)] else []
  {
    assert (packets + [p])[..|packets|] == packets;
  }

  lemma InFirst(packets: seq<Packet>)
    requires packets != []
    ensures var p := packets[0];
            && AnswersIn(packets) == (if p.Event? then [] else [p]) + AnswersIn(packets[1..])
            && EventsIn(packets) == (if p.Event? then [Raised(p.name, p.message)] else []) + EventsIn(packets[1..])
  {
    AnswersJoin([packets[0]], packets[1..]);
    EventsJoin([packets[0]], packets[1..]);
    InAppend([], packets[0]);
    assert [] + [packets[0]] == [packets[0]] && [packets[0]] + packets[1..] == packets;
  }

  lemma TakenAppend(taken: seq<(Raised, bool)>, event: Raised, callback: bool)
    ensures Firsts(taken + [(event, callback)]) == Firsts(taken) + [event]
    ensures Kept(taken + [(event, callback)]) == Kept(taken) + if callback then [] else [event]
  {
    assert (taken + [(event, callback)])[..|taken|] == taken;
  }

  lemma SendKeepsStream(w: World, p: Packet)
    requires StreamHolds(w) && Good(p)
    ensures StreamHolds(Sends(w, p))
  {
    FramedAppend(w.unread, [p]);
    assert [p][1..] == [];
    assert Framed([p]) == EncodePacket(p).value + Framed([]);
    assert w.client.buf + (w.wire + EncodePacket(p).value) == w.client.buf + w.wire + EncodePacket(p).value;
  }

  /** The world after the client took `p`. */
  function WithTaken(w: World, rest: bytes, p: Packet): World {
    var (c, outcome) := TakePacket(w.client.(buf := rest), p);
    Noted(w.(client := c), outcome)
  }

  lemma LookedStream(w: World, rest: bytes, p: Packet)
    requires !w.client.phase.Idle? && w.unread != []
    ensures var v := WithTaken(w, rest, p); v.client.buf == rest && v.wire == w.wire && v.unread == w.unread[1..]
  {
  }

  /** One more event taken: the order of all, and of those kept. */
  lemma EventNoted(w: World, event: Raised, callback: bool, pending: seq<Raised>, returned: seq<Raised>)
    requires Firsts(w.taken) + EventsIn(w.unread) == w.sent && w.unread != [] && EventsIn(w.unread) == [event] + EventsIn(w.unread[1..])
    requires Kept(w.taken) == returned + pending
    ensures Firsts(w.taken + [(event, callback)]) + EventsIn(w.unread[1..]) == w.sent
    ensures Kept(w.taken + [(event, callback)]) == returned + pending + if callback then [] else [event]
  {
    TakenAppend(w.taken, event, callback);
    assert Firsts(w.taken) + ([event] + EventsIn(w.unread[1..])) == Firsts(w.taken) + [event] + EventsIn(w.unread[1..]);
  }

  lemma EventLooked(w: World, rest: bytes, event: Raised)
    requires EventsHold(w) && !w.client.phase.Idle? && w.unread != []
    requires EventsIn(w.unread) == [event] + EventsIn(w.unread[1..])
    ensures var (c, outcome) := TakeEvent(w.client.(buf := rest), event); EventsHold(Noted(w.(client := c), outcome))
  {
    var c := w.client;
    if !c.phase.Asking? {
      EventNoted(w, event, false, [], w.returned);
      assert w.returned + [] == w.returned && w.returned + [event] + [] == w.returned + [event];
    } else {
      EventNoted(w, event, c.phase.callback, c.pending, w.returned);
      assert w.returned + c.pending + [] == w.returned + c.pending;
      assert w.returned + (c.pending + [event]) == w.returned + c.pending + [event];
    }
  }

  /** A step that takes no answer and begins no request. */
  lemma SameAnswers(w: World, v: World)
    requires AnswersHold(w) && v.astray == w.astray && v.results == w.results && v.answers == w.answers && v.asked == w.asked
    requires AnswersIn(v.unread) == AnswersIn(w.unread) && v.client.poisoned == w.client.poisoned
    requires v.client.phase == w.client.phase || v.client.phase.Idle?
    ensures AnswersHold(v)
  {
  }

  lemma AnswerLooked(w: World, rest: bytes, p: Packet)
    requires AnswersHold(w) && EventsHold(w) && !w.client.phase.Idle? && w.unread != [] && !p.Event?
    requires AnswersIn(w.unread) == [p] + AnswersIn(w.unread[1..]) && EventsIn(w.unread) == [] + EventsIn(w.unread[1..])
    ensures AnswersHold(WithTaken(w, rest, p)) && EventsHold(WithTaken(w, rest, p))
  {
    assert w.answers[|w.results|] == p;
    assert w.results + ([p] + AnswersIn(w.unread[1..])) == w.results + [p] + AnswersIn(w.unread[1..]);
    assert [] + EventsIn(w.unread[1..]) == EventsIn(w.unread[1..]);
  }

  lemma PacketLooked(w: World, rest: bytes, p: Packet)
    requires AnswersHold(w) && EventsHold(w) && !w.client.phase.Idle? && w.unread != []
    requires AnswersIn(w.unread) == (if p.Event? then [] else [p]) + AnswersIn(w.unread[1..])
    requires EventsIn(w.unread) == (if p.Event? then [Raised(p.name, p.message)] else []) + EventsIn(w.unread[1..])
    ensures AnswersHold(WithTaken(w, rest, p)) && EventsHold(WithTaken(w, rest, p))
  {
    if p.Event? {
      assert [] + AnswersIn(w.unread[1..]) == AnswersIn(w.unread[1..]);
      SameAnswers(w, WithTaken(w, rest, p));
      EventLooked(w, rest, Raised(p.name, p.message));
    } else {
      AnswerLooked(w, rest, p);
    }
  }

  lemma LookKeeps(w: World)
    requires Inv(w) && !w.client.phase.Idle?
    ensures Inv(Looked(w))
  {
    TakesFirst(w.client.buf, w.wire, w.unread);
    var r := ParseBuffered(w.client.buf).value;
    if r.Some? {
      var (p, rest) := r.value;
      InFirst(w.unread);
      PacketLooked(w, rest, p);
      LookedStream(w, rest, p);
    }
  }

  lemma OneMoreAnswer(w: World, v: World, p: Packet)
    requires AnswersHold(w) && |w.answers| < |w.asked| && Answers(p, w.asked[|w.answers|].CmdRequest?)
    requires v.astray == w.astray && v.results == w.results && v.asked == w.asked && v.client == w.client
    requires v.answers == w.answers + [p] && AnswersIn(v.unread) == AnswersIn(w.unread) + [p]
    ensures AnswersHold(v)
  {
    assert w.results + (AnswersIn(w.unread) + [p]) == w.results + AnswersIn(w.unread) + [p];
  }

  lemma AnswerKeeps(w: World, p: Packet)
    requires Inv(w) && Possible(w, DaemonAnswers(p))
    ensures Inv(Step(w, DaemonAnswers(p)))
  {
    SendKeepsStream(w, p);
    InAppend(w.unread, p);
    OneMoreAnswer(w, Step(w, DaemonAnswers(p)), p);
    assert EventsIn(w.unread) + [] == EventsIn(w.unread);
  }

  lemma OneMoreRaised(w: World, v: World, event: Raised)
    requires EventsHold(w) && v.client == w.client && v.taken == w.taken && v.returned == w.returned
    requires v.sent == w.sent + [event] && EventsIn(v.unread) == EventsIn(w.unread) + [event]
    ensures EventsHold(v)
  {
    assert Firsts(w.taken) + (EventsIn(w.unread) + [event]) == Firsts(w.taken) + EventsIn(w.unread) + [event];
  }

  lemma RaiseKeeps(w: World, event: Raised)
    requires Inv(w) && Possible(w, DaemonRaises(event))
    ensures Inv(Step(w, DaemonRaises(event)))
  {
    SendKeepsStream(w, AsPacket(event));
    InAppend(w.unread, AsPacket(event));
    assert AnswersIn(w.unread) + [] == AnswersIn(w.unread);
    SameAnswers(w, Step(w, DaemonRaises(event)));
    OneMoreRaised(w, Step(w, DaemonRaises(event)), event);
  }

  lemma AskKeeps(w: World, p: Packet, callback: bool)
    requires Inv(w) && Possible(w, Asks(p, callback))
    ensures Inv(Step(w, Asks(p, callback)))
  {
  }

  lemma ArriveKeeps(w: World, n: nat)
    requires Inv(w) && Possible(w, Arrives(n))
    ensures Inv(Step(w, Arrives(n)))
  {
    assert w.client.buf + w.wire[..n] + w.wire[n..] == w.client.buf + w.wire;
  }

  lemma ListenKeeps(w: World)
    requires Inv(w) && w.client.phase.Idle?
    ensures Inv(Step(w, Listens))
  {
    if w.client.pending != [] {
      assert w.returned + [w.client.pending[0]] + w.client.pending[1..] == w.returned + w.client.pending;
    }
  }

  lemma StepKeepsInv(w: World, ev: Event)
    requires Inv(w) && Possible(w, ev)
    ensures Inv(Step(w, ev))
  {
    match ev
    case Asks(p, callback) => AskKeeps(w, p, callback);
    case Listens => ListenKeeps(w);
    case Drops =>
    case Arrives(n) => ArriveKeeps(w, n);
    case Looks => LookKeeps(w);
    case DaemonAnswers(p) => AnswerKeeps(w, p);
    case DaemonRaises(event) => RaiseKeeps(w, event);
  }

  lemma {:induction false} RunKeepsInv(events: seq<Event>, w: World)
    requires Reaches(NEW, events, w)
    ensures Inv(w)
    decreases |events|
  {
    if events != [] {
      var k := |events| - 1;
      var mid: World :| Reaches(NEW, events[..k], mid) && Possible(mid, events[k]) && w == Step(mid, events[k]);
      RunKeepsInv(events[..k], mid);
      StepKeepsInv(mid, events[k]);
    }
  }

  /** Over every run, wherever futures are dropped: what the client returns
      for its requests is what the daemon answered to them, one for one and in
      their kind; no packet ever surprises it; and one that is idle and not
      poisoned has no request outstanding and no answer on the way. */
  lemma AnswersMatchRequests(events: seq<Event>, w: World)
    requires Reaches(NEW, events, w)
    ensures !w.astray && w.results <= w.answers && |w.results| <= |w.asked|
    ensures forall i :: 0 <= i < |w.results| ==> Answers(w.results[i], w.asked[i].CmdRequest?)
    ensures w.client.phase.Idle? && !w.client.poisoned ==> |w.asked| == |w.answers| == |w.results| && AnswersIn(w.unread) == []
  {
    RunKeepsInv(events, w);
  }

  /** Over every run: events are taken in the order they were sent, none is
      lost, and those no callback got come out in that order, those returned
      first and those kept after them. */
  lemma EventsKeepOrder(events: seq<Event>, w: World)
    requires Reaches(NEW, events, w)
    ensures Firsts(w.taken) + EventsIn(w.unread) == w.sent
    ensures Kept(w.taken) == w.returned + w.client.pending
  {
    RunKeepsInv(events, w);
  }

  /** The daemon has to behave: one that sends a packet out of turn and then
      its answer has that answer taken for the next command. */
  lemma LateAnswerMisleads(c: Client, odd: Packet, answer: Packet, next: Packet, end: bytes)
    requires c.phase == Asking(true, false) && !odd.Event? && !Answers(odd, true) && Answers(answer, true)
    requires ParseBuffered(c.buf) == Ok(Some((odd, end)))
    requires ParseBuffered(end).Ok? && ParseBuffered(end).value.Some? && ParseBuffered(end).value.value.0 == answer
    requires next.CmdRequest? && EncodePacket(next).Ok?
    ensures Take(c).1 == Unexpected(odd) && !Take(c).0.poisoned
    ensures Take(Begin(Take(c).0, next, false).0).1 == Answered(answer)
  {
    assert Begin(Take(c).0, next, false).0.buf == end;
  }
}
