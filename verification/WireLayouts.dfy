/** The formats byte by byte: SA payloads, vici packets, frames of the SSL-VPN
    tunnel and PPP packets. */
module WireLayouts {
  import opened Bytes
  import P = ProposalCodec
  import V = ViciMessage
  import VP = ViciPacket
  import VC = ViciClient
  import F = Framing
  import O = PppOptions
  import S = PppFsm
  import L = PppLink

  // ---- SA payloads (RFC 7296 section 3.3) --------------------------------------------

  /** Last or 3, the length, the type, the id, and the key length attribute. */
  lemma TransformIs(t: P.Transform, last: bool)
    ensures var b := P.EncodeTransform(t, last);
            && |b| == (if t.keyBits.Some? then 12 else 8)
            && b[..2] == [if last then 0 else 3, 0] && b[2..4] == Be16(|b|)
            && b[4] == (match t.kind case Encryption => 1 case PseudoRandom => 2 case Integrity => 3 case DiffieHellman => 4 case Esn => 5)
            && b[5] == 0 && b[6..8] == Be16(t.id)
            && (t.keyBits.Some? ==> b[8..10] == [0x80, 14] && b[10..12] == Be16(t.keyBits.value))
  {
    assert Be16(0x8000 + P.KEY_LENGTH) == [0x80, 14];
  }

  /** Last or 2, the length, the number, the protocol, the SPI and its size,
      and the transforms and how many. */
  lemma ProposalIs(p: P.Proposal, last: bool)
    requires p.Fits()
    ensures var b := P.EncodeProposal(p, last);
            && 8 + |p.spi| <= |b| < 0x1_0000
            && b[..2] == [if last then 0 else 2, 0] && b[2..4] == Be16(|b|)
            && b[4] == p.number && b[5] == (match p.protocol case Ike => 1 case Ah => 2 case Esp => 3)
            && b[6] == |p.spi| && b[7] == |p.transforms|
            && b[8..8 + |p.spi|] == p.spi && b[8 + |p.spi|..] == P.EncodeTransforms(p.transforms)
  {
    var b, body := P.EncodeProposal(p, last), P.EncodeBody(p);
    assert b[4..] == body && body[4..4 + |p.spi|] == p.spi && body[4 + |p.spi|..] == P.EncodeTransforms(p.transforms);
  }

  // ---- vici ----------------------------------------------------------------------------

  lemma Tagged(tag: byte, name: bytes)
    requires |name| < 0x100
    ensures [tag] + V.PutName(name) == [tag, |name|] + name
  {
  }

  /** A tag, the name after its size, and what the tag says: the items of a
      section up to its end, a value after its size, or values each with a tag. */
  lemma ItemIs(item: V.Item)
    requires V.SizedItem(item)
    ensures match item
            case Section(name, body) => V.PrintItem(item) == [1, |name|] + name + V.Print(body) + [2]
            case KeyValue(name, value) => V.PrintItem(item) == [3, |name|] + name + Be16(|value|) + value
            case Values(name, items) => V.PrintItem(item) == [4, |name|] + name + V.PutValues(items) + [6]
  {
    match item
    case Section(name, body) => Tagged(1, name);
    case KeyValue(name, value) =>
      Tagged(3, name);
      Grouped([3, |name|] + name, Be16(|value|), value);
    case Values(name, items) => Tagged(4, name);
  }

  lemma ValueIs(items: seq<bytes>)
    requires items != [] && forall v :: v in items ==> V.SizedValue(v)
    ensures var n := |items| - 1; assert items[n] in items; V.PutValues(items) == V.PutValues(items[..n]) + ([5] + Be16(|items[n]|) + items[n])
  {
    var n := |items| - 1;
    assert items[n] in items;
    Grouped(V.PutValues(items[..n]), [5], Be16(|items[n]|) + items[n]);
    Grouped([5], Be16(|items[n]|), items[n]);
  }

  /** The size of all the rest, the type, the name after its size, and the message. */
  lemma PacketIs(p: VP.Packet)
    requires VP.EncodePacket(p).Ok?
    ensures var b := VP.EncodePacket(p).value;
            && |b| >= 5 && b[..4] == Be32(|b| - 4)
            && b[4..] == match p
               case CmdRequest(name, message) => [0, |name|] + name + V.Print(message)
               case CmdResponse(message) => [1] + V.Print(message)
               case CmdUnknown => [2]
               case EventRegister(name) => [3, |name|] + name
               case EventUnregister(name) => [4, |name|] + name
               case EventConfirm => [5]
               case EventUnknown => [6]
               case Event(name, message) => [7, |name|] + name + V.Print(message)
  {
  }

  /** A name after its size, at the beginning. */
  lemma NameIsRead(data: bytes, name: bytes, rest: bytes)
    ensures V.TakeName(data) == Ok((name, rest)) <==> |name| < 0x100 && data == [|name|] + name + rest
  {
    if V.TakeName(data) == Ok((name, rest)) {
      assert data == [data[0]] + data[1..1 + data[0]] + data[1 + data[0]..];
    }
  }

  lemma NamedIsRead(body: bytes, kind: byte, name: bytes)
    requires body != []
    ensures |name| < 0x100 && [kind, |name|] + name <= body <==>
              body[0] == kind && V.TakeName(body[1..]).Ok? && V.TakeName(body[1..]).value.0 == name
    ensures V.TakeName(body[1..]).Ok? ==>
              |V.TakeName(body[1..]).value.0| + 2 <= |body|
              && V.TakeName(body[1..]).value.1 == body[2 + |V.TakeName(body[1..]).value.0|..]
  {
    var rest := body[1..];
    if V.TakeName(rest).Ok? {
      var n := rest[0];
      assert rest[1..1 + n] == body[2..2 + n] && rest[1 + n..] == body[2 + n..];
      assert body[..2 + n] == [body[0], n] + body[2..2 + n];
    }
    if |name| < 0x100 && [kind, |name|] + name <= body {
      var head := [kind, |name|] + name;
      assert head == body[..|head|] && body[0] == head[0] && body[1] == head[1];
      assert body[2..2 + |name|] == head[2..] == name && rest[0] == |name| && rest[1..1 + |name|] == body[2..2 + |name|];
    }
  }

  /** The packet a body is read as: what follows the name or the type of a
      packet without a message means nothing. */
  lemma BodyIsRead(body: bytes, p: VP.Packet)
    ensures VP.DecodePacket(body) == Ok(p) <==>
              match p
              case CmdRequest(name, message) =>
                |name| < 0x100 && [0, |name|] + name <= body && V.Decode(body[2 + |name|..]) == Ok(message)
              case CmdResponse(message) => [1] <= body && V.Decode(body[1..]) == Ok(message)
              case CmdUnknown => [2] <= body
              case EventRegister(name) => |name| < 0x100 && [3, |name|] + name <= body
              case EventUnregister(name) => |name| < 0x100 && [4, |name|] + name <= body
              case EventConfirm => [5] <= body
              case EventUnknown => [6] <= body
              case Event(name, message) =>
                |name| < 0x100 && [7, |name|] + name <= body && V.Decode(body[2 + |name|..]) == Ok(message)
  {
    if body != [] && p.HasName() {
      NamedIsRead(body, p.Kind(), p.name);
    }
  }

  lemma SlicesOf(a: bytes, b: bytes, c: bytes)
    ensures (a + b + c)[..|a|] == a && (a + b + c)[|a|..|a| + |b|] == b && (a + b + c)[|a| + |b|..] == c
  {
  }

  /** One packet and what follows it. */
  predicate Begins(buf: bytes, body: bytes, rest: bytes) {
    1 <= |body| <= 0x8_0000 && buf == Be32(|body|) + body + rest
  }

  lemma BodyStands(buf: bytes, body: bytes, rest: bytes)
    requires Begins(buf, body, rest)
    ensures |buf| >= 4 + |body| && FromBe32(buf[..4]) == |body| && buf[4..4 + |body|] == body && buf[4 + |body|..] == rest
  {
    SlicesOf(Be32(|body|), body, rest);
    FromBe32RoundTrip(Be32(|body|));
  }

  lemma TakesBody(buf: bytes, body: bytes, rest: bytes)
    requires Begins(buf, body, rest)
    ensures match VP.DecodePacket(body)
            case Ok(p) => VC.ParseBuffered(buf) == Ok(Some((p, rest)))
            case Err(error) => VC.ParseBuffered(buf) == Err(error)
  {
    BodyStands(buf, body, rest);
  }

  lemma TakenBody(buf: bytes, p: VP.Packet, rest: bytes) returns (body: bytes)
    requires VC.ParseBuffered(buf) == Ok(Some((p, rest)))
    ensures Begins(buf, body, rest)
  {
    FromBe32RoundTrip(buf[..4]);
    body := buf[4..4 + FromBe32(buf[..4])];
    assert buf == buf[..4] + body + buf[4 + |body|..];
  }

  /** A packet is taken off a stream if and only if its size, of 1 byte to 512
      KiB, stands before it and it is all there; and it must decode. */
  lemma PacketIsTaken(buf: bytes, p: VP.Packet, rest: bytes)
    ensures VC.ParseBuffered(buf) == Ok(Some((p, rest))) <==>
              exists body: bytes :: Begins(buf, body, rest) && VP.DecodePacket(body) == Ok(p)
  {
    if VC.ParseBuffered(buf) == Ok(Some((p, rest))) {
      var body := TakenBody(buf, p, rest);
      TakesBody(buf, body, rest);
    }
    if body: bytes :| Begins(buf, body, rest) && VP.DecodePacket(body) == Ok(p) {
      TakesBody(buf, body, rest);
    }
  }

  /** And a stream is waited on if and only if its first packet may still come. */
  lemma PacketIsAwaited(buf: bytes)
    ensures VC.ParseBuffered(buf) == Ok(None) <==>
              |buf| < 4 || (1 <= FromBe32(buf[..4]) <= 0x8_0000 && |buf| - 4 < FromBe32(buf[..4]))
  {
  }

  // ---- the SSL-VPN tunnel ----------------------------------------------------------------

  /** A frame: its size, 0x5050, the size of the packet, the packet. The first
      one is taken off an inbox if and only if it is all there. */
  lemma FrameIsTaken(inbox: bytes, packet: bytes, rest: bytes)
    ensures F.First(inbox) == F.Whole(packet, rest) <==>
              1 <= |packet| <= 65529 && inbox == Be16(|packet| + 6) + [0x50, 0x50] + Be16(|packet|) + packet + rest
  {
    if 1 <= |packet| <= 65529 && inbox == Be16(|packet| + 6) + [0x50, 0x50] + Be16(|packet|) + packet + rest {
      var head := Be16(|packet| + 6) + [0x50, 0x50] + Be16(|packet|);
      assert inbox == head + (packet + rest) && |head| == 6;
      SlicesOf(head, packet, rest);
      assert inbox == head + packet + rest;
      assert head[..2] == Be16(|packet| + 6) && head[2..4] == [0x50, 0x50] && head[4..6] == Be16(|packet|);
      assert inbox[..2] == head[..2] && inbox[2..4] == head[2..4] && inbox[4..6] == head[4..6];
      assert inbox[..6][2] == 0x50 && F.HTTP[2] == 0x54;
    }
    if F.First(inbox) == F.Whole(packet, rest) {
      FromBe16RoundTrip(inbox[..2]);
      FromBe16RoundTrip(inbox[4..6]);
      assert inbox == inbox[..2] + inbox[2..4] + inbox[4..6] + inbox[6..|packet| + 6] + inbox[|packet| + 6..];
    }
  }

  /** What begins with "HTTP/1" is an answer to the request before the tunnel;
      anything else that is no frame's beginning is a bad header. */
  lemma FrameIsRefused(inbox: bytes)
    ensures F.First(inbox) == F.Wrong(F.AnsweredHttp) <==> [0x48, 0x54, 0x54, 0x50, 0x2f, 0x31] <= inbox
    ensures F.First(inbox) == F.Wrong(F.BadHeader) <==>
              && |inbox| >= 6 && !([0x48, 0x54, 0x54, 0x50, 0x2f, 0x31] <= inbox)
              && forall n: nat :: 1 <= n <= 65529 ==> inbox[..6] != Be16(n + 6) + [0x50, 0x50] + Be16(n)
  {
    if |inbox| >= 6 {
      assert [0x48, 0x54, 0x54, 0x50, 0x2f, 0x31] <= inbox <==> inbox[..6] == F.HTTP;
      FromBe16RoundTrip(inbox[..2]);
      FromBe16RoundTrip(inbox[4..6]);
      var total, length := FromBe16(inbox[..2]), FromBe16(inbox[4..6]);
      assert inbox[..6] == inbox[..2] + inbox[2..4] + inbox[4..6];
      forall n: nat | 1 <= n <= 65529 && inbox[..6] == Be16(n + 6) + [0x50, 0x50] + Be16(n)
        ensures total == n + 6 && length == n && inbox[2..4] == [0x50, 0x50]
      {
        var head := inbox[..6];
        assert inbox[..2] == head[..2] == Be16(n + 6) && inbox[4..6] == head[4..6] == Be16(n) && inbox[2..4] == head[2..4];
      }
    }
  }

  // ---- PPP (RFC 1661 sections 5 and 6) -----------------------------------------------------

  /** A control packet: protocol, code, identifier, length, data. */
  lemma ControlIs(layer: S.Layer, code: byte, id: byte, data: bytes)
    requires |data| + 4 < 0x1_0000
    ensures S.Packet(layer, code, id, data)
            == (if layer.Lcp? then [0xc0, 0x21] else [0x80, 0x21]) + [code, id] + Be16(|data| + 4) + data
  {
  }

  /** What of a packet is read: as much as its length says, if that is there. */
  lemma ControlIsRead(payload: bytes, code: byte, id: byte, data: bytes)
    ensures L.ParseControl(payload) == Some((code, id, data)) <==>
              |data| + 4 < 0x1_0000 && [code, id] + Be16(|data| + 4) + data <= payload
  {
    if |data| + 4 < 0x1_0000 && [code, id] + Be16(|data| + 4) + data <= payload {
      var b := [code, id] + Be16(|data| + 4) + data;
      assert b == payload[..|b|] && b[2..4] == Be16(|data| + 4) && b[4..] == data;
      assert payload[2..4] == b[2..4] && payload[4..|data| + 4] == b[4..];
    }
    if L.ParseControl(payload) == Some((code, id, data)) {
      FromBe16RoundTrip(payload[2..4]);
      assert payload[..|data| + 4] == [payload[0], payload[1]] + payload[2..4] + payload[4..|data| + 4];
    }
  }

  /** An option: kind, length, data; one after another. */
  lemma OptionsAre(o: O.Opt, more: seq<O.Opt>)
    requires O.AllFit([o] + more)
    ensures O.AllFit(more) && O.EncodeAll([o] + more) == [o.kind, |o.data| + 2] + o.data + O.EncodeAll(more)
  {
    assert o in [o] + more && forall x :: x in more ==> x in [o] + more;
    assert ([o] + more)[1..] == more;
  }
}
