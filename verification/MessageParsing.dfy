/** Which bytes are an IKE message, and which is it (RFC 7296 sections 3.1 and 3.2). */
module MessageParsing {
  import opened Bytes
  import opened Payloads
  import opened Messages

  // ---- the header ---------------------------------------------------------------------

  /** The 28 bytes of a header, of any minor version and with any other flags. */
  predicate IsHeader(b: bytes, h: Header) {
    && |b| >= 28 && b[..8] == Be64(h.initiatorSpi) && b[8..16] == Be64(h.responderSpi)
    && b[16] == h.nextPayload && 0x20 <= b[17] < 0x30
    && b[18] == (match h.exchange case IkeSaInit => 34 case IkeAuth => 35 case CreateChildSa => 36 case Informational => 37)
    && (h.fromInitiator <==> (b[19] / 8) % 2 == 1) && (h.isResponse <==> (b[19] / 32) % 2 == 1)
    && b[20..24] == Be32(h.messageId) && b[24..28] == Be32(h.length)
  }

  /** Those bytes, whatever the minor version, and no others are read. */
  lemma HeaderIsRead(b: bytes, h: Header)
    ensures DecodeHeader(b) == Ok(h) <==> IsHeader(b, h)
  {
    if |b| >= 28 {
      FromBe64RoundTrip(b[..8]);
      FromBe64RoundTrip(b[8..16]);
      FromBe32RoundTrip(b[20..24]);
      FromBe32RoundTrip(b[24..28]);
      Be64RoundTrip(h.initiatorSpi);
      Be64RoundTrip(h.responderSpi);
      Be32RoundTrip(h.messageId);
      Be32RoundTrip(h.length);
    }
  }

  // ---- the payloads -------------------------------------------------------------------

  predicate AllFit(payloads: seq<RawPayload>) {
    forall i :: 0 <= i < |payloads| ==> |payloads[i].data| + 4 < 0x1_0000
  }

  /** The type of the first payload, `last` if there is none. */
  function FirstKind(payloads: seq<RawPayload>, last: byte): byte {
    if payloads == [] then last else payloads[0].kind
  }

  /** Payloads one after another, each with the type of the next, a byte that
      means nothing, its length and its data; `last` is the type at the end. */
  function Written(payloads: seq<RawPayload>, reserved: seq<byte>, last: byte): bytes
    requires |reserved| == |payloads| && AllFit(payloads)
  {
    if payloads == [] then []
    else
      [FirstKind(payloads[1..], last), reserved[0]] + Be16(|payloads[0].data| + 4) + payloads[0].data
      + Written(payloads[1..], reserved[1..], last)
  }

  /** Payloads that none ends a chain among. */
  predicate Ordinary(payloads: seq<RawPayload>) {
    AllFit(payloads) && forall i :: 0 <= i < |payloads| ==> payloads[i].kind != 0 && !IsProtected(payloads[i].kind)
  }

  /** What stands at `offset` is these payloads, to a type 0; the rest means
      nothing. */
  ghost predicate StandOpen(b: bytes, offset: nat, kind: byte, payloads: seq<RawPayload>)
    requires offset <= |b|
  {
    && Ordinary(payloads) && kind == FirstKind(payloads, 0)
    && exists reserved: seq<byte> :: |reserved| == |payloads| && Written(payloads, reserved, 0) <= b[offset..]
  }

  /** Or these, of which the last is encrypted and takes all the rest. */
  ghost predicate StandEncrypted(b: bytes, offset: nat, kind: byte, payloads: seq<RawPayload>, at: nat)
    requires offset <= |b|
  {
    && payloads != []
    && var n := |payloads| - 1;
       && Ordinary(payloads[..n]) && IsProtected(payloads[n].kind) && kind == FirstKind(payloads, 0)
       && offset <= at && at + 4 <= |b| < at + 0x1_0000
       && b[at + 2..at + 4] == Be16(|b| - at) && payloads[n].data == b[at + 4..]
       && exists reserved: seq<byte> :: |reserved| == n && Written(payloads[..n], reserved, payloads[n].kind) == b[offset..at]
  }

  lemma WrittenMore(one: RawPayload, r: byte, payloads: seq<RawPayload>, reserved: seq<byte>, last: byte)
    requires |reserved| == |payloads| && AllFit(payloads) && |one.data| + 4 < 0x1_0000
    ensures AllFit([one] + payloads)
    ensures Written([one] + payloads, [r] + reserved, last)
            == [FirstKind(payloads, last), r] + Be16(|one.data| + 4) + one.data + Written(payloads, reserved, last)
  {
    var all := [one] + payloads;
    assert all[1..] == payloads && ([r] + reserved)[1..] == reserved;
  }

  /** The first payload, cut off. */
  lemma FirstCut(b: bytes, offset: nat, len: nat)
    requires offset + len <= |b| && 4 <= len < 0x1_0000 && b[offset + 2..offset + 4] == Be16(len)
    ensures b[offset..offset + len] == [b[offset], b[offset + 1]] + Be16(len) + b[offset + 4..offset + len]
  {
    assert b[offset..offset + len] == [b[offset], b[offset + 1]] + b[offset + 2..offset + 4] + b[offset + 4..offset + len];
  }

  /** Bytes that continue what was written. */
  lemma Continues(b: bytes, offset: nat, len: nat, end: nat, w: bytes)
    requires offset + len <= end <= |b|
    ensures w <= b[offset + len..] ==> b[offset..offset + len] + w <= b[offset..]
    ensures w == b[offset + len..end] ==> b[offset..offset + len] + w == b[offset..end]
  {
    if w <= b[offset + len..] {
      assert b[offset..][..len + |w|] == b[offset..offset + len] + b[offset + len..][..|w|];
    }
  }

  lemma OrdinaryMore(one: RawPayload, payloads: seq<RawPayload>)
    requires |one.data| + 4 < 0x1_0000 && one.kind != 0 && !IsProtected(one.kind)
    ensures Ordinary([one] + payloads) <==> Ordinary(payloads)
  {
    var all := [one] + payloads;
    if Ordinary(all) {
      forall i | 0 <= i < |payloads|
        ensures |payloads[i].data| + 4 < 0x1_0000 && payloads[i].kind != 0 && !IsProtected(payloads[i].kind)
      {
        assert all[i + 1] == payloads[i];
      }
    }
  }

  lemma OpenMore(b: bytes, offset: nat, kind: byte, len: nat, payloads: seq<RawPayload>)
    requires offset + len <= |b| && 4 <= len < 0x1_0000 && b[offset + 2..offset + 4] == Be16(len)
    requires kind != 0 && !IsProtected(kind) && StandOpen(b, offset + len, b[offset], payloads)
    ensures StandOpen(b, offset, kind, [RawPayload(kind, b[offset + 4..offset + len])] + payloads)
  {
    var one := RawPayload(kind, b[offset + 4..offset + len]);
    var reserved: seq<byte> :| |reserved| == |payloads| && Written(payloads, reserved, 0) <= b[offset + len..];
    FirstCut(b, offset, len);
    WrittenMore(one, b[offset + 1], payloads, reserved, 0);
    OrdinaryMore(one, payloads);
    Continues(b, offset, len, |b|, Written(payloads, reserved, 0));
    assert Written([one] + payloads, [b[offset + 1]] + reserved, 0) <= b[offset..];
  }

  lemma EncryptedHas(b: bytes, offset: nat, init: seq<RawPayload>, sk: RawPayload, at: nat, reserved: seq<byte>)
    requires offset <= at && at + 4 <= |b| < at + 0x1_0000 && Ordinary(init) && |reserved| == |init| && IsProtected(sk.kind)
    requires Written(init, reserved, sk.kind) == b[offset..at] && b[at + 2..at + 4] == Be16(|b| - at) && sk.data == b[at + 4..]
    ensures StandEncrypted(b, offset, FirstKind(init, sk.kind), init + [sk], at)
  {
    assert (init + [sk])[..|init|] == init;
    assert FirstKind(init + [sk], 0) == FirstKind(init, sk.kind);
  }

  lemma WrittenBefore(b: bytes, offset: nat, len: nat, one: RawPayload, init: seq<RawPayload>, reserved: seq<byte>, last: byte, at: nat)
    requires offset + len <= at <= |b| && 4 <= len < 0x1_0000 && b[offset + 2..offset + 4] == Be16(len)
    requires one.data == b[offset + 4..offset + len] && AllFit(init) && |reserved| == |init|
    requires b[offset] == FirstKind(init, last) && Written(init, reserved, last) == b[offset + len..at]
    ensures AllFit([one] + init) && Written([one] + init, [b[offset + 1]] + reserved, last) == b[offset..at]
  {
    FirstCut(b, offset, len);
    WrittenMore(one, b[offset + 1], init, reserved, last);
    Continues(b, offset, len, at, Written(init, reserved, last));
  }

  lemma LastOf(one: RawPayload, payloads: seq<RawPayload>)
    requires payloads != []
    ensures var n := |payloads| - 1; [one] + payloads[..n] + [payloads[n]] == [one] + payloads
  {
  }

  lemma EncryptedMore(b: bytes, offset: nat, kind: byte, len: nat, payloads: seq<RawPayload>, at: nat)
    requires offset + len <= |b| && 4 <= len < 0x1_0000 && b[offset + 2..offset + 4] == Be16(len)
    requires kind != 0 && !IsProtected(kind) && StandEncrypted(b, offset + len, b[offset], payloads, at)
    ensures StandEncrypted(b, offset, kind, [RawPayload(kind, b[offset + 4..offset + len])] + payloads, at)
  {
    var one := RawPayload(kind, b[offset + 4..offset + len]);
    var n := |payloads| - 1;
    var init, sk := payloads[..n], payloads[n];
    var reserved: seq<byte> :| |reserved| == n && Written(init, reserved, sk.kind) == b[offset + len..at];
    assert FirstKind(init, sk.kind) == FirstKind(payloads, 0);
    WrittenBefore(b, offset, len, one, init, reserved, sk.kind, at);
    OrdinaryMore(one, init);
    EncryptedHas(b, offset, [one] + init, sk, at, [b[offset + 1]] + reserved);
    LastOf(one, payloads);
  }

  lemma {:induction false} ParsedStand(b: bytes, offset: nat, kind: byte)
    requires offset <= |b| && ParsePayloads(b, offset, kind).Ok?
    ensures var (payloads, at) := ParsePayloads(b, offset, kind).value;
            if at.None? then StandOpen(b, offset, kind, payloads) else StandEncrypted(b, offset, kind, payloads, at.value)
    decreases |b| - offset
  {
    if kind == NO_NEXT {
      assert Written([], [], 0) <= b[offset..];
    } else {
      var len := FromBe16(b[offset + 2..offset + 4]);
      FromBe16RoundTrip(b[offset + 2..offset + 4]);
      if IsProtected(kind) {
        var payloads := [RawPayload(kind, b[offset + 4..])];
        assert payloads[..0] == [] && b[offset..offset] == [] && Written([], [], kind) == [];
        assert StandEncrypted(b, offset, kind, payloads, offset);
      } else {
        ParsedStand(b, offset + len, b[offset]);
        var (rest, at) := ParsePayloads(b, offset + len, b[offset]).value;
        if at.None? {
          OpenMore(b, offset, kind, len, rest);
        } else {
          EncryptedMore(b, offset, kind, len, rest, at.value);
        }
      }
    }
  }

  /** One payload taken off. */
  lemma ParsesFirst(b: bytes, offset: nat, one: RawPayload, next: byte, r: byte, more: bytes)
    requires offset <= |b| && |one.data| + 4 < 0x1_0000 && one.kind != 0 && !IsProtected(one.kind)
    requires [next, r] + Be16(|one.data| + 4) + one.data + more <= b[offset..]
    ensures var end := offset + 4 + |one.data|;
            && end <= |b| && more <= b[end..] && b[offset] == next && b[offset..end] + more <= b[offset..]
            && ParsePayloads(b, offset, one.kind) == Continue([one], ParsePayloads(b, end, next))
  {
    var here := [next, r] + Be16(|one.data| + 4) + one.data;
    var end := offset + |here|;
    assert here + more <= b[offset..];
    assert b[offset..][..|here|] == here && b[offset..end] == here;
    assert b[end..] == b[offset..][|here|..];
    assert b[offset] == here[0] && b[offset + 2..offset + 4] == here[2..4] == Be16(|one.data| + 4);
    assert b[offset + 4..end] == here[4..] == one.data;
  }

  lemma WrittenFirst(payloads: seq<RawPayload>, reserved: seq<byte>, last: byte)
    requires payloads != [] && Ordinary(payloads) && |reserved| == |payloads|
    ensures Ordinary(payloads[1..])
    ensures Written(payloads, reserved, last)
            == [FirstKind(payloads[1..], last), reserved[0]] + Be16(|payloads[0].data| + 4) + payloads[0].data
               + Written(payloads[1..], reserved[1..], last)
  {
  }

  lemma Rejoined(payloads: seq<RawPayload>, r: Result<(seq<RawPayload>, Option<nat>)>, at: Option<nat>)
    requires payloads != [] && r == Ok((payloads[1..], at))
    ensures Continue([payloads[0]], r) == Ok((payloads, at))
  {
    assert [payloads[0]] + payloads[1..] == payloads;
  }

  lemma {:induction false} OpenParses(b: bytes, offset: nat, payloads: seq<RawPayload>, reserved: seq<byte>)
    requires offset <= |b| && Ordinary(payloads) && |reserved| == |payloads| && Written(payloads, reserved, 0) <= b[offset..]
    ensures ParsePayloads(b, offset, FirstKind(payloads, 0)) == Ok((payloads, None))
    decreases |payloads|
  {
    if payloads != [] {
      var one, tail := payloads[0], payloads[1..];
      WrittenFirst(payloads, reserved, 0);
      var end := offset + 4 + |one.data|;
      ParsesFirst(b, offset, one, FirstKind(tail, 0), reserved[0], Written(tail, reserved[1..], 0));
      OpenParses(b, end, tail, reserved[1..]);
      Rejoined(payloads, ParsePayloads(b, end, FirstKind(tail, 0)), None);
    }
  }

  lemma ParsesFirstOf(b: bytes, offset: nat, at: nat, one: RawPayload, next: byte, r: byte, more: bytes)
    requires offset <= at <= |b| && |one.data| + 4 < 0x1_0000 && one.kind != 0 && !IsProtected(one.kind)
    requires [next, r] + Be16(|one.data| + 4) + one.data + more == b[offset..at]
    ensures var end := offset + 4 + |one.data|;
            && end <= at && more == b[end..at]
            && ParsePayloads(b, offset, one.kind) == Continue([one], ParsePayloads(b, end, next))
  {
    var here := [next, r] + Be16(|one.data| + 4) + one.data;
    assert b[offset..at] <= b[offset..];
    ParsesFirst(b, offset, one, next, r, more);
    assert more == (here + more)[|here|..] == b[offset..at][|here|..] == b[offset + |here|..at];
  }

  lemma {:induction false} EncryptedParses(b: bytes, offset: nat, init: seq<RawPayload>, reserved: seq<byte>, sk: RawPayload, at: nat)
    requires offset <= at && at + 4 <= |b| < at + 0x1_0000 && Ordinary(init) && |reserved| == |init| && IsProtected(sk.kind)
    requires Written(init, reserved, sk.kind) == b[offset..at] && b[at + 2..at + 4] == Be16(|b| - at) && sk.data == b[at + 4..]
    ensures ParsePayloads(b, offset, FirstKind(init, sk.kind)) == Ok((init + [sk], Some(at)))
    decreases |init|
  {
    if init == [] {
      assert offset == at;
      assert [] + [sk] == [sk];
    } else {
      var one, tail := init[0], init[1..];
      var end := offset + 4 + |one.data|;
      WrittenFirst(init, reserved, sk.kind);
      ParsesFirstOf(b, offset, at, one, FirstKind(tail, sk.kind), reserved[0], Written(tail, reserved[1..], sk.kind));
      EncryptedParses(b, end, tail, reserved[1..], sk, at);
      assert (init + [sk])[1..] == tail + [sk];
      Rejoined(init + [sk], ParsePayloads(b, end, FirstKind(tail, sk.kind)), Some(at));
    }
  }

  lemma StandingOpen(b: bytes, offset: nat, kind: byte, payloads: seq<RawPayload>)
    requires offset <= |b| && StandOpen(b, offset, kind, payloads)
    ensures ParsePayloads(b, offset, kind) == Ok((payloads, None))
  {
    var reserved: seq<byte> :| |reserved| == |payloads| && Written(payloads, reserved, 0) <= b[offset..];
    OpenParses(b, offset, payloads, reserved);
  }

  lemma StandingEncrypted(b: bytes, offset: nat, kind: byte, payloads: seq<RawPayload>, at: nat)
    requires offset <= |b| && StandEncrypted(b, offset, kind, payloads, at)
    ensures ParsePayloads(b, offset, kind) == Ok((payloads, Some(at)))
  {
    var n := |payloads| - 1;
    var init, sk := payloads[..n], payloads[n];
    var reserved: seq<byte> :| |reserved| == n && Written(init, reserved, sk.kind) == b[offset..at];
    EncryptedParses(b, offset, init, reserved, sk, at);
    assert init + [sk] == payloads && FirstKind(init, sk.kind) == FirstKind(payloads, 0);
  }

  /** Bytes parse to a message just when they are its header, the length in it
      is theirs, and its payloads stand after it. */
  lemma ParsesExactly(b: bytes, packet: Packet)
    ensures Parse(b) == Ok(packet) <==>
              && packet.raw == b && IsHeader(b, packet.header) && packet.header.length == |b|
              && if packet.encryptedAt.None? then StandOpen(b, 28, b[16], packet.payloads)
                 else StandEncrypted(b, 28, b[16], packet.payloads, packet.encryptedAt.value)
  {
    HeaderIsRead(b, packet.header);
    if |b| >= 28 && ParsePayloads(b, 28, b[16]).Ok? {
      ParsedStand(b, 28, b[16]);
    }
    if IsHeader(b, packet.header) {
      if packet.encryptedAt.None? && StandOpen(b, 28, b[16], packet.payloads) {
        StandingOpen(b, 28, b[16], packet.payloads);
      }
      if packet.encryptedAt.Some? && StandEncrypted(b, 28, b[16], packet.payloads, packet.encryptedAt.value) {
        StandingEncrypted(b, 28, b[16], packet.payloads, packet.encryptedAt.value);
      }
    }
    if Parse(b).Ok? {
      HeaderIsRead(b, Parse(b).value.header);
    }
  }
}
