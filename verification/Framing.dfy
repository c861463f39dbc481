/** PPP packets over the TLS stream of an SSL-VPN tunnel: six bytes of header,
    read in whatever pieces the stream comes in. */
module Framing {
  import opened Bytes
  import opened PppFsm
  import opened PppLink
  import PppClass

  const FRAME_HEADER: nat := 6
  const HTTP: bytes := [0x48, 0x54, 0x54, 0x50, 0x2f, 0x31]
  const MAX_PACKET: nat := 0xffff - FRAME_HEADER

  datatype Failure = AnsweredHttp | BadHeader

  /** One frame, of a packet of up to 65529 bytes. */
  function Framed(packet: bytes): Option<bytes> {
    if |packet| > MAX_PACKET then None
    else Some(Be16(|packet| + FRAME_HEADER) + [0x50, 0x50] + Be16(|packet|) + packet)
  }

  method Send(packet: bytes) returns (frame: Option<bytes>)
    ensures frame == Framed(packet)
  {
    if |packet| > 0xffff || |packet| + FRAME_HEADER > 0xffff {
      return None;
    }
    var length: u16 := |packet| + FRAME_HEADER;
    var b := Be16(length);
    b := b + [0x50, 0x50];
    b := b + Be16(length - FRAME_HEADER);
    b := b + packet;
    frame := Some(b);
  }

  /** What the inbox begins with: not a whole frame, one packet, or neither. */
  datatype Head = Partial | Whole(packet: bytes, rest: bytes) | Wrong(failure: Failure)

  function First(inbox: bytes): (h: Head)
    ensures h.Whole? ==> |h.rest| < |inbox|
  {
    if |inbox| < FRAME_HEADER then Partial
    else if inbox[..FRAME_HEADER] == HTTP then Wrong(AnsweredHttp)
    else
      var total, length := FromBe16(inbox[..2]), FromBe16(inbox[4..6]);
      if inbox[2..4] != [0x50, 0x50] || total < FRAME_HEADER + 1 || total - FRAME_HEADER != length then Wrong(BadHeader)
      else if |inbox| < total then Partial
      else Whole(inbox[FRAME_HEADER..total], inbox[total..])
  }

  /** The packets taken out of an inbox, what stays in it, and the failure that
      ended the reading if one did. */
  datatype Unframed = Unframed(packets: seq<bytes>, rest: bytes, failure: Option<Failure>)

  function Prepended(packets: seq<bytes>, u: Unframed): Unframed {
    u.(packets := packets + u.packets)
  }

  function Unframe(inbox: bytes): Unframed
    decreases |inbox|
  {
    match First(inbox)
    case Partial => Unframed([], inbox, None)
    case Wrong(failure) => Unframed([], inbox, Some(failure))
    case Whole(packet, rest) =>
      Prepended([packet], Unframe(rest))
  }

  /** PPP fed with packets, one after the other. */
  function FeedAll(p: Link, packets: seq<bytes>, now: int, randoms: nat -> u32): (r: (Link, seq<Action>))
    requires Typed(p)
    ensures Typed(r.0)
  {
    if packets == [] then (p, [])
    else
      var n := |packets| - 1;
      var (q, actions) := FeedAll(p, packets[..n], now, randoms);
      Then(actions, Input(q, packets[n], now, randoms))
  }

  lemma PrependedNothing(u: Unframed)
    ensures Prepended([], u) == u
  {
    assert [] + u.packets == u.packets;
  }

  lemma PrependedTwice(a: seq<bytes>, b: seq<bytes>, u: Unframed)
    ensures Prepended(a, Prepended(b, u)) == Prepended(a + b, u)
  {
    assert a + (b + u.packets) == a + b + u.packets;
  }

  lemma FeedOneMore(p: Link, packets: seq<bytes>, packet: bytes, now: int, randoms: nat -> u32)
    requires Typed(p)
    ensures FeedAll(p, packets + [packet], now, randoms)
            == Then(FeedAll(p, packets, now, randoms).1, Input(FeedAll(p, packets, now, randoms).0, packet, now, randoms))
  {
    assert (packets + [packet])[..|packets|] == packets;
  }

  class Tunnel {
    var inbox: bytes
    const ppp: PppClass.Ppp

    constructor (ppp: PppClass.Ppp)
      ensures this.ppp == ppp && inbox == []
    {
      this.ppp := ppp;
      inbox := [];
    }

    /** The next frame, drained off the inbox if it is whole. */
    method TakeFrame() returns (h: Head)
      modifies this`inbox
      ensures h == First(old(inbox))
      ensures inbox == if h.Whole? then h.rest else old(inbox)
    {
      if |inbox| < FRAME_HEADER {
        return Partial;
      }
      if inbox[..FRAME_HEADER] == HTTP {
        return Wrong(AnsweredHttp);
      }
      var total, length := FromBe16(inbox[..2]), FromBe16(inbox[4..6]);
      if inbox[2..4] != [0x50, 0x50] || total < FRAME_HEADER + 1 || total - FRAME_HEADER != length {
        return Wrong(BadHeader);
      }
      if |inbox| < total {
        return Partial;
      }
      h := Whole(inbox[FRAME_HEADER..total], inbox[total..]);
      inbox := inbox[total..];
    }

    /** The frames of the inbox are fed to PPP in their order. */
    method UnframeInbox(now: int, randoms: nat -> u32) returns (r: Result<seq<Action>>)
      requires ppp.Valid()
      modifies this`inbox, ppp, ppp.lcp, ppp.ipcp
      ensures ppp.Valid()
      ensures var u := Unframe(old(inbox));
              var (p, actions) := FeedAll(old(ppp.View()), u.packets, now, randoms);
              && inbox == u.rest && ppp.View() == p
              && r == if u.failure.None? then Ok(actions) else Err(Malformed)
    {
      var actions: seq<Action> := [];
      ghost var fed: seq<bytes> := [];
      ghost var whole := Unframe(inbox);
      PrependedNothing(whole);
      while true
        invariant ppp.Valid()
        invariant whole == Prepended(fed, Unframe(inbox))
        invariant (ppp.View(), actions) == FeedAll(old(ppp.View()), fed, now, randoms)
        decreases |inbox|
      {
        ghost var u := Unframe(inbox);
        var h := TakeFrame();
        if !h.Whole? {
          assert fed + [] == fed;
          return if h.Partial? then Ok(actions) else Err(Malformed);
        }
        PrependedTwice(fed, [h.packet], Unframe(inbox));
        var more := ppp.Feed(h.packet, now, randoms);
        actions := actions + more;
        FeedOneMore(old(ppp.View()), fed, h.packet, now, randoms);
        fed := fed + [h.packet];
      }
    }
  }

  // ---- the pieces a stream is read in -----------------------------------------------------

  /** Read by read, until a failure. */
  function UnframeReads(inbox: bytes, chunks: seq<bytes>): Unframed
    decreases |chunks|
  {
    var u := Unframe(inbox);
    if chunks == [] || u.failure.Some? then u
    else
      var more := UnframeReads(u.rest + chunks[0], chunks[1..]);
      Prepended(u.packets, more)
  }

  lemma FirstOfMore(inbox: bytes, more: bytes)
    ensures match First(inbox)
            case Partial => true
            case Wrong(failure) => First(inbox + more) == Wrong(failure)
            case Whole(packet, rest) => First(inbox + more) == Whole(packet, rest + more)
  {
    if |inbox| >= FRAME_HEADER {
      var all := inbox + more;
      assert all[..FRAME_HEADER] == inbox[..FRAME_HEADER] && all[..2] == inbox[..2] && all[2..4] == inbox[2..4] && all[4..6] == inbox[4..6];
      var total: int := FromBe16(inbox[..2]);
      if FRAME_HEADER <= total <= |inbox| {
        assert all[FRAME_HEADER..total] == inbox[FRAME_HEADER..total] && all[total..] == inbox[total..] + more;
      }
    }
  }

  /** Reading on after `u`. */
  function Onward(u: Unframed, more: bytes): Unframed {
    if u.failure.Some? then u.(rest := u.rest + more)
    else
      var next := Unframe(u.rest + more);
      Prepended(u.packets, next)
  }

  lemma {:induction false} UnframeMore(inbox: bytes, more: bytes)
    ensures Unframe(inbox + more) == Onward(Unframe(inbox), more)
    decreases |inbox|
  {
    FirstOfMore(inbox, more);
    match First(inbox)
    case Whole(packet, rest) =>
      UnframeMore(rest, more);
      var u := Unframe(rest);
      PrependedTwice([packet], u.packets, Unframe(u.rest + more));
    case _ => PrependedNothing(Unframe(inbox + more));
  }

  /** However a stream is cut in reads, the same packets are fed to PPP and the
      same failure ends it if one does; and if none does the same bytes stay in
      the inbox. */
  lemma {:induction false} ReadsDoNotMatter(inbox: bytes, chunks: seq<bytes>)
    ensures var a, b := UnframeReads(inbox, chunks), Unframe(inbox + Joined(chunks));
            a.packets == b.packets && a.failure == b.failure && (a.failure.None? ==> a.rest == b.rest)
    decreases |chunks|
  {
    var u := Unframe(inbox);
    if chunks == [] {
      assert inbox + [] == inbox;
    } else {
      UnframeMore(inbox, Joined(chunks));
      if u.failure.None? {
        ReadsDoNotMatter(u.rest + chunks[0], chunks[1..]);
        assert u.rest + chunks[0] + Joined(chunks[1..]) == u.rest + Joined(chunks);
      }
    }
  }

  predicate Sendable(packets: seq<bytes>) {
    forall i :: 0 <= i < |packets| ==> 1 <= |packets[i]| <= MAX_PACKET
  }

  function FrameAll(packets: seq<bytes>): bytes
    requires Sendable(packets)
  {
    if packets == [] then [] else Framed(packets[0]).value + FrameAll(packets[1..])
  }

  lemma FrameFirst(packet: bytes, rest: bytes)
    requires 1 <= |packet| <= MAX_PACKET
    ensures First(Framed(packet).value + rest) == Whole(packet, rest)
  {
    var all := Framed(packet).value + rest;
    assert all[..2] == Be16(|packet| + FRAME_HEADER) && all[2..4] == [0x50, 0x50] && all[4..6] == Be16(|packet|);
    assert all[..FRAME_HEADER][2] == 0x50;
    assert all[FRAME_HEADER..FRAME_HEADER + |packet|] == packet && all[FRAME_HEADER + |packet|..] == rest;
  }

  lemma UnframeFirst(inbox: bytes, packet: bytes, rest: bytes)
    requires First(inbox) == Whole(packet, rest)
    ensures Unframe(inbox) == Prepended([packet], Unframe(rest))
  {
  }

  lemma {:induction false} FramesComeBack(packets: seq<bytes>, tail: bytes)
    requires Sendable(packets)
    ensures Unframe(FrameAll(packets) + tail) == Prepended(packets, Unframe(tail))
  {
    if packets == [] {
      assert FrameAll(packets) + tail == tail;
      PrependedNothing(Unframe(tail));
    } else {
      var rest := FrameAll(packets[1..]) + tail;
      assert Sendable(packets[1..]) && FrameAll(packets) == Framed(packets[0]).value + FrameAll(packets[1..]);
      FramesComeBack(packets[1..], tail);
      FrameFirst(packets[0], rest);
      Grouped(Framed(packets[0]).value, FrameAll(packets[1..]), tail);
      UnframeFirst(Framed(packets[0]).value + rest, packets[0], rest);
      PrependedTwice([packets[0]], packets[1..], Unframe(tail));
      assert [packets[0]] + packets[1..] == packets;
    }
  }

  /** A part of a frame is waited for: it is never taken for a failure. */
  lemma PartIsPartial(packet: bytes, part: bytes)
    requires 1 <= |packet| <= MAX_PACKET && part < Framed(packet).value
    ensures Unframe(part) == Unframed([], part, None)
  {
    var all := Framed(packet).value;
    if |part| >= FRAME_HEADER {
      FrameFirst(packet, []);
      assert all + [] == all;
      assert part[..FRAME_HEADER] == all[..FRAME_HEADER] && part[..2] == all[..2] && part[2..4] == all[2..4] && part[4..6] == all[4..6];
      assert all[2] == 0x50 && part[..FRAME_HEADER][2] == 0x50;
      assert all[..2] == Be16(|packet| + FRAME_HEADER) && all[4..6] == Be16(|packet|) && all[2..4] == [0x50, 0x50];
    }
  }

  /** Whatever the reads: out of the frames of packets of 1 to 65529 bytes,
      and a part of one more, come just these packets, in order, without a
      failure; and just that part stays in the inbox. */
  lemma PacketsArriveAsSent(packets: seq<bytes>, next: bytes, part: bytes, chunks: seq<bytes>)
    requires Sendable(packets) && 1 <= |next| <= MAX_PACKET && part < Framed(next).value
    requires Joined(chunks) == FrameAll(packets) + part
    ensures UnframeReads([], chunks) == Unframed(packets, part, None)
  {
    ReadsDoNotMatter([], chunks);
    assert [] + Joined(chunks) == Joined(chunks);
    FramesComeBack(packets, part);
    PartIsPartial(next, part);
    assert packets + [] == packets;
  }

  /** What can be sent can be read, but for the empty packet: its frame is
      taken for a bad header. */
  lemma SentIsRead(packet: bytes)
    requires Framed(packet).Some?
    ensures First(Framed(packet).value) == Whole(packet, []) <==> packet != []
  {
    if packet != [] {
      FrameFirst(packet, []);
      assert Framed(packet).value + [] == Framed(packet).value;
    }
  }
}
