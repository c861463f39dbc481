/** The EAP peer: identity, MD5 challenge, GTC and MSCHAPv2 (RFC 3748). The
    hashes are parameters. */
module Eap {
  import opened Bytes

  /** A challenge of ours. */
  type Challenge = b: seq<byte> | |b| == 16 witness [0, 0, 0, 0, 0, 0, 0, 0, 0, 0, 0, 0, 0, 0, 0, 0]

  const CODE_REQUEST: byte := 1
  const CODE_RESPONSE: byte := 2
  const CODE_SUCCESS: byte := 3
  const CODE_FAILURE: byte := 4

  const TYPE_IDENTITY: byte := 1
  const TYPE_NOTIFICATION: byte := 2
  const TYPE_NAK: byte := 3
  const TYPE_MD5_CHALLENGE: byte := 4
  const TYPE_GTC: byte := 6
  const TYPE_MSCHAPV2: byte := 26

  const MSCHAPV2_CHALLENGE: byte := 1
  const MSCHAPV2_RESPONSE: byte := 2
  const MSCHAPV2_SUCCESS: byte := 3
  const CHALLENGE_LEN := 16
  const RESPONSE_LEN := 24

  datatype Method = EapMschapv2 | EapMd5 | EapGtc

  /** What MSCHAPv2 and MD5-Challenge compute. */
  datatype Hashes = Hashes(
    ntResponse: (bytes, bytes, bytes, bytes) -> bytes,
    authenticatorResponse: (bytes, bytes, bytes, bytes, bytes) -> bytes,
    masterKey: (bytes, bytes) -> bytes,
    md5: bytes -> bytes)
  {
    ghost predicate Sized() {
      && (forall u, p, a, c :: |ntResponse(u, p, a, c)| == RESPONSE_LEN)
      && (forall d :: |md5(d)| == 16)
    }
  }

  /** The state of an MSCHAPv2 conversation. */
  datatype Conversation = Conversation(authenticatorChallenge: bytes, peerChallenge: bytes, ntResponse: bytes)

  datatype Peer = Peer(wanted: Option<Method>, username: bytes, password: bytes, mschapv2: Option<Conversation>, msk: Option<bytes>) {
    predicate Accepts(m: Method) { wanted.None? || wanted.value == m }

    function MethodType(): byte {
      if wanted == Some(EapGtc) then TYPE_GTC
      else if wanted == Some(EapMd5) then TYPE_MD5_CHALLENGE
      else TYPE_MSCHAPV2
    }

    /** Whose answers fit a packet. */
    predicate Short() { |username| + 64 < 0x1_0000 && |password| + 5 < 0x1_0000 }
  }

  datatype Step = Reply(packet: bytes) | Success(msk: Option<bytes>)

  /** The error of a failed authentication. */
  const Denied: Error := Crypto

  function Response(id: byte, kind: byte, data: bytes): bytes
    requires |data| + 5 < 0x1_0000
  {
    [CODE_RESPONSE, id] + Be16(|data| + 5) + [kind] + data
  }

  function Replied(p: Peer, id: byte, kind: byte, data: bytes): (Peer, Result<Step>)
    requires |data| + 5 < 0x1_0000
  {
    (p, Ok(Reply(Response(id, kind, data))))
  }

  /** A length, then so many bytes. */
  function Sized8(data: bytes): Result<bytes> {
    if data == [] || |data| - 1 < data[0] then Err(Malformed) else Ok(data[1..1 + data[0]])
  }

  /** The message an MSCHAPv2 packet says it holds. */
  function Body(data: bytes): Result<bytes> {
    if |data| < 4 then Err(Malformed)
    else
      var length := FromBe16(data[2..4]);
      if length > |data| then Err(Malformed) else Ok(data[4..if length < 4 then 4 else length])
  }

  function Expected(h: Hashes, p: Peer): bytes
    requires p.mschapv2.Some?
  {
    var c := p.mschapv2.value;
    h.authenticatorResponse(p.username, p.password, c.ntResponse, c.authenticatorChallenge, c.peerChallenge)
  }

  /** A challenge of 16 bytes gets an NT response; `random` is our challenge. */
  function AnswerChallenge(h: Hashes, p: Peer, id: byte, msId: byte, body: bytes, random: Challenge): (Peer, Result<Step>)
    requires p.Short() && h.Sized()
  {
    match Sized8(body)
    case Err(e) => (p, Err(e))
    case Ok(challenge) =>
      if |challenge| != CHALLENGE_LEN then (p, Err(Malformed))
      else
        var nt := h.ntResponse(p.username, p.password, challenge, random);
        var response := [49] + random + Repeat(0, 8) + nt + [0] + p.username;
        Replied(p.(mschapv2 := Some(Conversation(challenge, random, nt))), id, TYPE_MSCHAPV2,
                [MSCHAPV2_RESPONSE, msId] + Be16(4 + |response|) + response)
  }

  function Mschapv2(h: Hashes, p: Peer, id: byte, data: bytes, random: Challenge): (Peer, Result<Step>)
    requires p.Short() && h.Sized()
  {
    match Body(data)
    case Err(e) => (p, Err(e))
    case Ok(body) =>
      if data[0] == MSCHAPV2_CHALLENGE then AnswerChallenge(h, p, id, data[1], body, random)
      else if data[0] == MSCHAPV2_SUCCESS then
        (if p.mschapv2.None? then (p, Err(Malformed))
         else if !(Expected(h, p) <= body) then (p, Err(Denied))
         else Replied(p.(msk := Some(h.masterKey(p.password, p.mschapv2.value.ntResponse))), id, TYPE_MSCHAPV2, [MSCHAPV2_SUCCESS]))
      else (p, Err(if data[0] == 4 then Denied else Malformed))
  }

  function Request(h: Hashes, p: Peer, id: byte, kind: byte, data: bytes, random: Challenge): (Peer, Result<Step>)
    requires p.Short() && h.Sized()
  {
    if kind == TYPE_IDENTITY then Replied(p, id, TYPE_IDENTITY, p.username)
    else if kind == TYPE_NOTIFICATION then Replied(p, id, TYPE_NOTIFICATION, [])
    else if kind == TYPE_MSCHAPV2 && p.Accepts(EapMschapv2) then Mschapv2(h, p, id, data, random)
    else if kind == TYPE_MD5_CHALLENGE && p.Accepts(EapMd5) then
      match Sized8(data)
      case Err(e) => (p, Err(e))
      case Ok(challenge) =>
        Replied(p, id, TYPE_MD5_CHALLENGE, [16] + h.md5([id] + p.password + challenge) + p.username)
    else if kind == TYPE_GTC && p.Accepts(EapGtc) then Replied(p, id, TYPE_GTC, p.password)
    else if kind in {TYPE_MSCHAPV2, TYPE_MD5_CHALLENGE, TYPE_GTC} then Replied(p, id, TYPE_NAK, [p.MethodType()])
    else (p, Err(Denied))
  }

  function Handle(h: Hashes, p: Peer, packet: bytes, random: Challenge): (Peer, Result<Step>)
    requires p.Short() && h.Sized()
  {
    if |packet| < 4 then (p, Err(Malformed))
    else
      var length := FromBe16(packet[2..4]);
      if length < 4 || length > |packet| then (p, Err(Malformed))
      else if packet[0] == CODE_SUCCESS then
        (if (p.wanted == Some(EapMschapv2) || p.mschapv2.Some?) && p.msk.None? then (p, Err(Denied))
         else (p.(msk := None), Ok(Success(p.msk))))
      else if packet[0] == CODE_FAILURE then (p, Err(Denied))
      else if packet[0] == CODE_REQUEST then
        (if length < 5 then (p, Err(Malformed)) else Request(h, p, packet[1], packet[4], packet[5..length], random))
      else (p, Err(Malformed))
  }

  class EapPeer {
    const wanted: Option<Method>
    const username: bytes
    const password: bytes
    var mschapv2: Option<Conversation>
    var msk: Option<bytes>

    function View(): Peer
      reads this
    {
      Peer(wanted, username, password, mschapv2, msk)
    }

    constructor (wanted: Option<Method>, username: bytes, password: bytes)
      ensures View() == Peer(wanted, username, password, None, None)
    {
      this.wanted, this.username, this.password := wanted, username, password;
      mschapv2, msk := None, None;
    }

    method OnPacket(h: Hashes, packet: bytes, random: Challenge) returns (r: Result<Step>)
      requires View().Short() && h.Sized()
      modifies this
      ensures (View(), r) == Handle(h, old(View()), packet, random)
    {
      if |packet| < 4 {
        return Err(Malformed);
      }
      var code, id, length := packet[0], packet[1], FromBe16(packet[2..4]);
      if length < 4 || length > |packet| {
        return Err(Malformed);
      }
      if code == CODE_SUCCESS {
        if (wanted == Some(EapMschapv2) || mschapv2.Some?) && msk.None? {
          return Err(Denied);
        }
        r := Ok(Success(msk));
        msk := None;
      } else if code == CODE_FAILURE {
        r := Err(Denied);
      } else if code == CODE_REQUEST {
        if length < 5 {
          return Err(Malformed);
        }
        r := OnRequest(h, id, packet[4], packet[5..length], random);
      } else {
        r := Err(Malformed);
      }
    }

    method OnRequest(h: Hashes, id: byte, kind: byte, data: bytes, random: Challenge) returns (r: Result<Step>)
      requires View().Short() && h.Sized()
      modifies this
      ensures (View(), r) == Request(h, old(View()), id, kind, data, random)
    {
      if kind == TYPE_IDENTITY {
        r := Ok(Reply(Response(id, TYPE_IDENTITY, username)));
      } else if kind == TYPE_NOTIFICATION {
        r := Ok(Reply(Response(id, TYPE_NOTIFICATION, [])));
      } else if kind == TYPE_MSCHAPV2 && View().Accepts(EapMschapv2) {
        r := OnMschapv2(h, id, data, random);
      } else if kind == TYPE_MD5_CHALLENGE && View().Accepts(EapMd5) {
        if data == [] || |data| - 1 < data[0] {
          return Err(Malformed);
        }
        var response := [16];
        response := response + h.md5([id] + password + data[1..1 + data[0]]);
        response := response + username;
        r := Ok(Reply(Response(id, TYPE_MD5_CHALLENGE, response)));
      } else if kind == TYPE_GTC && View().Accepts(EapGtc) {
        r := Ok(Reply(Response(id, TYPE_GTC, password)));
      } else if kind in {TYPE_MSCHAPV2, TYPE_MD5_CHALLENGE, TYPE_GTC} {
        r := Ok(Reply(Response(id, TYPE_NAK, [View().MethodType()])));
      } else {
        r := Err(Denied);
      }
    }

    method OnMschapv2(h: Hashes, id: byte, data: bytes, random: Challenge) returns (r: Result<Step>)
      requires View().Short() && h.Sized()
      modifies this
      ensures (View(), r) == Mschapv2(h, old(View()), id, data, random)
    {
      var body := Body(data);
      if body.Err? {
        return Err(body.error);
      }
      if data[0] == MSCHAPV2_CHALLENGE {
        var challenge := Sized8(body.value);
        if challenge.Err? {
          return Err(challenge.error);
        }
        if |challenge.value| != CHALLENGE_LEN {
          return Err(Malformed);
        }
        var nt := h.ntResponse(username, password, challenge.value, random);
        mschapv2 := Some(Conversation(challenge.value, random, nt));
        var response := [49] + random + Repeat(0, 8) + nt + [0] + username;
        r := Ok(Reply(Response(id, TYPE_MSCHAPV2, [MSCHAPV2_RESPONSE, data[1]] + Be16(4 + |response|) + response)));
      } else if data[0] == MSCHAPV2_SUCCESS {
        if mschapv2.None? {
          return Err(Malformed);
        }
        if !(Expected(h, View()) <= body.value) {
          return Err(Denied);
        }
        msk := Some(h.masterKey(password, mschapv2.value.ntResponse));
        r := Ok(Reply(Response(id, TYPE_MSCHAPV2, [MSCHAPV2_SUCCESS])));
      } else {
        r := Err(if data[0] == 4 then Denied else Malformed);
      }
    }
  }

  // ---- answers ------------------------------------------------------------------------------

  /** Every reply is a response with the identifier of the request and its own
      length. */
  lemma RepliesFit(h: Hashes, p: Peer, packet: bytes, random: Challenge)
    requires p.Short() && h.Sized()
    requires var r := Handle(h, p, packet, random).1; r.Ok? && r.value.Reply?
    ensures var reply := Handle(h, p, packet, random).1.value.packet;
            && |reply| >= 5 && reply[0] == CODE_RESPONSE && reply[1] == packet[1] && FromBe16(reply[2..4]) == |reply|
            && packet[0] == CODE_REQUEST
  {
    var reply := Handle(h, p, packet, random).1.value.packet;
    assert exists kind: byte, data: bytes :: |data| + 5 < 0x1_0000 && reply == Response(packet[1], kind, data);
    var kind: byte, data: bytes :| |data| + 5 < 0x1_0000 && reply == Response(packet[1], kind, data);
    assert reply[2..4] == Be16(|data| + 5);
  }

  /** What a request of type MSCHAPv2 asks, and the data of the answer: our
      challenge and the NT response to that of the gateway, and our name; or
      the acknowledgement of its proof. */
  ghost predicate IsMschapv2Answer(h: Hashes, p: Peer, data: bytes, random: Challenge, body: bytes) {
    && |data| >= 4 && FromBe16(data[2..4]) <= |data|
    && var size := FromBe16(data[2..4]);
       var inner := data[4..if size < 4 then 4 else size];
       if data[0] == 1 then
         && |inner| >= 17 && inner[0] == 16
         && |body| == 54 + |p.username| < 0x1_0000 && body[0] == 2 && body[1] == data[1] && body[2..4] == Be16(|body|)
         && body[4] == 49 && body[5..21] == random && (forall i :: 21 <= i < 29 ==> body[i] == 0)
         && body[29..53] == h.ntResponse(p.username, p.password, inner[1..17], random)
         && body[53] == 0 && body[54..] == p.username
       else
         && data[0] == 3 && p.mschapv2.Some? && body == [3]
         && h.authenticatorResponse(p.username, p.password, p.mschapv2.value.ntResponse, p.mschapv2.value.authenticatorChallenge,
                                    p.mschapv2.value.peerChallenge) <= inner
  }

  /** What a request of a type asks, and the type and the data of the answer. */
  ghost predicate IsAnswer(h: Hashes, p: Peer, id: byte, kind: byte, data: bytes, random: Challenge, answered: byte, body: bytes) {
    if kind == 1 then answered == 1 && body == p.username
    else if kind == 2 then answered == 2 && body == []
    else if kind == 26 && p.wanted in {None, Some(EapMschapv2)} then answered == 26 && IsMschapv2Answer(h, p, data, random, body)
    else if kind == 4 && p.wanted in {None, Some(EapMd5)} then
      && answered == 4 && data != [] && data[0] < |data|
      && |body| == 17 + |p.username| && body[0] == 16
      && body[1..17] == h.md5([id] + p.password + data[1..1 + data[0]]) && body[17..] == p.username
    else if kind == 6 && p.wanted in {None, Some(EapGtc)} then answered == 6 && body == p.password
    else
      && kind in {26, 4, 6} && answered == 3
      && body == [match p.wanted case Some(EapGtc) => 6 case Some(EapMd5) => 4 case _ => 26]
  }

  /** A packet that is a request of this length. */
  predicate IsRequest(packet: bytes) {
    |packet| >= 5 && packet[0] == 1 && 5 <= FromBe16(packet[2..4]) <= |packet|
  }

  ghost predicate IsReplyTo(h: Hashes, p: Peer, packet: bytes, random: Challenge, reply: bytes) {
    && IsRequest(packet) && 5 <= |reply| < 0x1_0000
    && reply[0] == 2 && reply[1] == packet[1] && reply[2..4] == Be16(|reply|)
    && IsAnswer(h, p, packet[1], packet[4], packet[5..FromBe16(packet[2..4])], random, reply[4], reply[5..])
  }

  lemma ResponseIs(id: byte, kind: byte, data: bytes, reply: bytes)
    requires |data| + 5 < 0x1_0000
    ensures reply == Response(id, kind, data) <==>
              && 5 <= |reply| < 0x1_0000 && reply[0] == 2 && reply[1] == id && reply[2..4] == Be16(|reply|)
              && reply[4] == kind && reply[5..] == data
  {
    if 5 <= |reply| < 0x1_0000 && reply[0] == 2 && reply[1] == id && reply[2..4] == Be16(|reply|) && reply[4] == kind && reply[5..] == data {
      assert reply == [reply[0], reply[1]] + reply[2..4] + [reply[4]] + reply[5..];
    }
    var r := Response(id, kind, data);
    assert r[2..4] == Be16(|data| + 5) && r[5..] == data;
  }

  ghost predicate IsPacket(reply: bytes, id: byte) {
    5 <= |reply| < 0x1_0000 && reply[0] == 2 && reply[1] == id && reply[2..4] == Be16(|reply|)
  }

  lemma ChallengeAnswer(h: Hashes, p: Peer, msId: byte, challenge: bytes, random: Challenge, body: bytes)
    requires p.Short() && h.Sized()
    ensures var nt := h.ntResponse(p.username, p.password, challenge, random);
            var response := [49] + random + Repeat(0, 8) + nt + [0] + p.username;
            body == [2, msId] + Be16(4 + |response|) + response <==>
              && |body| == 54 + |p.username| && body[0] == 2 && body[1] == msId && body[2..4] == Be16(|body|)
              && body[4] == 49 && body[5..21] == random && (forall i :: 21 <= i < 29 ==> body[i] == 0)
              && body[29..53] == nt && body[53] == 0 && body[54..] == p.username
  {
    var nt := h.ntResponse(p.username, p.password, challenge, random);
    var response := [49] + random + Repeat(0, 8) + nt + [0] + p.username;
    var made := [2, msId] + Be16(4 + |response|) + response;
    assert made[2..4] == Be16(|made|) && made[5..21] == random && made[29..53] == nt && made[54..] == p.username;
    if && |body| == 54 + |p.username| && body[0] == 2 && body[1] == msId && body[2..4] == Be16(|body|)
       && body[4] == 49 && body[5..21] == random && (forall i :: 21 <= i < 29 ==> body[i] == 0)
       && body[29..53] == nt && body[53] == 0 && body[54..] == p.username
    {
      assert body[21..29] == Repeat(0, 8);
      assert body == [body[0], body[1]] + body[2..4] + ([body[4]] + body[5..21] + body[21..29] + body[29..53] + [body[53]] + body[54..]);
    }
  }

  lemma Mschapv2Replies(h: Hashes, p: Peer, id: byte, data: bytes, random: Challenge, reply: bytes)
    requires p.Short() && h.Sized()
    ensures Mschapv2(h, p, id, data, random).1 == Ok(Reply(reply)) <==>
              IsPacket(reply, id) && reply[4] == 26 && IsMschapv2Answer(h, p, data, random, reply[5..])
  {
    if |reply| >= 5 {
      var body := Body(data);
      if body.Ok? && data[0] == 1 {
        if Sized8(body.value).Ok? && |Sized8(body.value).value| == CHALLENGE_LEN {
          var challenge := Sized8(body.value).value;
          ChallengeAnswer(h, p, data[1], challenge, random, reply[5..]);
          var nt := h.ntResponse(p.username, p.password, challenge, random);
          var response := [49] + random + Repeat(0, 8) + nt + [0] + p.username;
          ResponseIs(id, 26, [2, data[1]] + Be16(4 + |response|) + response, reply);
        }
      } else if body.Ok? && data[0] == 3 {
        ResponseIs(id, 26, [3], reply);
      }
    }
  }

  lemma Md5Replies(h: Hashes, p: Peer, id: byte, data: bytes, reply: bytes)
    requires p.Short() && h.Sized()
    ensures Sized8(data).Ok? <==> data != [] && data[0] < |data|
    ensures Sized8(data).Ok? ==>
              var sum := h.md5([id] + p.password + data[1..1 + data[0]]);
              reply == Response(id, TYPE_MD5_CHALLENGE, [16] + h.md5([id] + p.password + Sized8(data).value) + p.username) <==>
                && IsPacket(reply, id) && reply[4] == 4 && |reply| == 22 + |p.username| && reply[5] == 16
                && reply[5..][1..17] == sum && reply[5..][17..] == p.username
  {
    if Sized8(data).Ok? {
      var sum := h.md5([id] + p.password + Sized8(data).value);
      var body := [16] + sum + p.username;
      ResponseIs(id, TYPE_MD5_CHALLENGE, body, reply);
      assert body[1..17] == sum && body[17..] == p.username;
      if |reply| == 22 + |p.username| && reply[5] == 16 && reply[5..][1..17] == sum && reply[5..][17..] == p.username {
        assert reply[5..] == [reply[5]] + reply[5..][1..17] + reply[5..][17..];
      }
    }
  }

  lemma RequestReplies(h: Hashes, p: Peer, id: byte, kind: byte, data: bytes, random: Challenge, reply: bytes)
    requires p.Short() && h.Sized()
    ensures Request(h, p, id, kind, data, random).1 == Ok(Reply(reply)) <==>
              IsPacket(reply, id) && IsAnswer(h, p, id, kind, data, random, reply[4], reply[5..])
  {
    ResponseIs(id, TYPE_IDENTITY, p.username, reply);
    ResponseIs(id, TYPE_NOTIFICATION, [], reply);
    ResponseIs(id, TYPE_GTC, p.password, reply);
    ResponseIs(id, TYPE_NAK, [p.MethodType()], reply);
    if kind == TYPE_MSCHAPV2 && p.Accepts(EapMschapv2) {
      Mschapv2Replies(h, p, id, data, random, reply);
    } else if kind == TYPE_MD5_CHALLENGE && p.Accepts(EapMd5) {
      Md5Replies(h, p, id, data, reply);
    }
  }

  /** A packet is answered with a reply if and only if it asks for that one. */
  lemma RepliesAsAsked(h: Hashes, p: Peer, packet: bytes, random: Challenge, reply: bytes)
    requires p.Short() && h.Sized()
    ensures Handle(h, p, packet, random).1 == Ok(Reply(reply)) <==> IsReplyTo(h, p, packet, random, reply)
  {
    if IsRequest(packet) {
      RequestReplies(h, p, packet[1], packet[4], packet[5..FromBe16(packet[2..4])], random, reply);
    }
  }

  // ---- runs -----------------------------------------------------------------------------------

  /** The peer after the first packets, each with the challenge drawn for it. */
  function After(h: Hashes, p: Peer, packets: seq<(bytes, Challenge)>): (q: Peer)
    requires p.Short() && h.Sized()
    ensures q.Short() && q.wanted == p.wanted && q.username == p.username && q.password == p.password
  {
    if packets == [] then p
    else
      var n := |packets| - 1;
      Handle(h, After(h, p, packets[..n]), packets[n].0, packets[n].1).0
  }

  /** What packet `i` was answered. */
  function StepAt(h: Hashes, p: Peer, packets: seq<(bytes, Challenge)>, i: nat): Result<Step>
    requires p.Short() && h.Sized() && i < |packets|
  {
    Handle(h, After(h, p, packets[..i]), packets[i].0, packets[i].1).1
  }

  ghost predicate SucceedsAt(h: Hashes, p: Peer, packets: seq<(bytes, Challenge)>, i: nat)
    requires p.Short() && h.Sized() && i < |packets|
  {
    StepAt(h, p, packets, i).Ok? && StepAt(h, p, packets, i).value.Success?
  }

  /** Packet `i` proves that the gateway knows the password: it begins with the
      authenticator response for the challenge outstanding then, whose key is
      `msk`. */
  ghost predicate ProvesAt(h: Hashes, p: Peer, packets: seq<(bytes, Challenge)>, i: nat, msk: bytes)
    requires p.Short() && h.Sized() && i < |packets|
  {
    var q, packet := After(h, p, packets[..i]), packets[i].0;
    && |packet| >= 5 && packet[0] == CODE_REQUEST && packet[4] == TYPE_MSCHAPV2
    && 5 <= FromBe16(packet[2..4]) <= |packet|
    && q.mschapv2.Some? && msk == h.masterKey(p.password, q.mschapv2.value.ntResponse)
    && var data := packet[5..FromBe16(packet[2..4])];
       Body(data).Ok? && data[0] == MSCHAPV2_SUCCESS && Expected(h, q) <= Body(data).value
  }

  /** Among the first `n` packets one proves it, and none after it gives the
      key away. */
  ghost predicate Proven(h: Hashes, p: Peer, packets: seq<(bytes, Challenge)>, n: nat, msk: bytes)
    requires p.Short() && h.Sized() && n <= |packets|
  {
    exists j :: 0 <= j < n && ProvesAt(h, p, packets, j, msk) && forall k :: j < k < n ==> !SucceedsAt(h, p, packets, k)
  }

  /** A packet that leaves a key behind proves it, or found it there. */
  lemma KeyComesFromProof(h: Hashes, p: Peer, packets: seq<(bytes, Challenge)>, i: nat)
    requires p.Short() && h.Sized() && i < |packets|
    ensures var before, after := After(h, p, packets[..i]), After(h, p, packets[..i + 1]);
            after.msk.Some? ==>
              ProvesAt(h, p, packets, i, after.msk.value) || (after.msk == before.msk && !SucceedsAt(h, p, packets, i))
  {
    assert packets[..i + 1][..i] == packets[..i];
  }

  lemma StaysProven(h: Hashes, p: Peer, packets: seq<(bytes, Challenge)>, n: nat, msk: bytes)
    requires p.Short() && h.Sized() && n < |packets| && Proven(h, p, packets, n, msk) && !SucceedsAt(h, p, packets, n)
    ensures Proven(h, p, packets, n + 1, msk)
  {
    var j :| 0 <= j < n && ProvesAt(h, p, packets, j, msk) && forall k :: j < k < n ==> !SucceedsAt(h, p, packets, k);
    assert forall k :: j < k < n + 1 ==> !SucceedsAt(h, p, packets, k);
  }

  lemma {:induction false} KeyIsProven(h: Hashes, p: Peer, packets: seq<(bytes, Challenge)>, n: nat)
    requires p.Short() && h.Sized() && p.msk.None? && n <= |packets|
    ensures var q := After(h, p, packets[..n]); q.msk.Some? ==> Proven(h, p, packets, n, q.msk.value)
  {
    if n > 0 && After(h, p, packets[..n]).msk.Some? {
      var msk := After(h, p, packets[..n]).msk.value;
      KeyComesFromProof(h, p, packets, n - 1);
      if ProvesAt(h, p, packets, n - 1, msk) {
        assert Proven(h, p, packets, n, msk);
      } else {
        KeyIsProven(h, p, packets, n - 1);
        StaysProven(h, p, packets, n - 1, msk);
      }
    }
  }

  /** Over every run: with MSCHAPv2 as the method, or once one of its
      challenges was answered, a success carries a key, and since the success
      before it the gateway has proved that it knows the password, for the
      challenge that was outstanding when it did and whose key it is. */
  lemma SuccessNeedsProof(h: Hashes, wanted: Option<Method>, username: bytes, password: bytes, packets: seq<(bytes, Challenge)>, i: nat)
    requires var p := Peer(wanted, username, password, None, None); p.Short() && h.Sized() && i < |packets| && SucceedsAt(h, p, packets, i)
    requires wanted == Some(EapMschapv2) || After(h, Peer(wanted, username, password, None, None), packets[..i]).mschapv2.Some?
    ensures var p := Peer(wanted, username, password, None, None);
            var msk := StepAt(h, p, packets, i).value.msk;
            msk.Some? && Proven(h, p, packets, i, msk.value)
  {
    KeyIsProven(h, Peer(wanted, username, password, None, None), packets, i);
  }
}
