/** What a protected IKE datagram is, byte by byte, and what of it is
    authenticated (RFC 7296 sections 3.1 and 3.14, RFC 5282 section 5). */
module MessageSecurity {
  import opened Bytes
  import opened Crypto
  import opened Payloads
  import opened Messages
  import opened Reassembly

  /** `plain`, zeros, and how many of them; a whole number of blocks. */
  predicate IsPadded(text: bytes, plain: bytes, c: Cipher) {
    && |plain| < |text| <= |plain| + c.BlockLen() && |text| % c.BlockLen() == 0
    && text[..|plain|] == plain && text[|text| - 1] == |text| - 1 - |plain|
    && forall i :: |plain| <= i < |text| - 1 ==> text[i] == 0
  }

  /** The plaintext a datagram whose IV stands at `at` authenticates: under an
      AEAD with all before the IV, under CBC with an HMAC of all before it. */
  ghost predicate Authenticates(p: Primitives, keys: Keys, d: bytes, at: nat, text: bytes) {
    var c := keys.cipher;
    var body := at + c.IvLen();
    && |keys.encryption| == c.KeyLen()
    && if c.IsAead() then
         && body + c.IcvLen() <= |d|
         && p.open(c, keys.encryption, d[at..body], d[..at], d[body..]) == Some(text)
       else
         var end := |d| - keys.integrity.IcvLen();
         && body <= end && (end - body) % AES_BLOCK_LEN == 0
         && IsMac(p, keys.integrity, keys.integrityKey, d[..end], d[end..])
         && p.open(c, keys.encryption, d[at..body], [], d[body..end]) == Some(text)
  }

  /** Where the IV of a parsed datagram stands. */
  function IvAt(packet: Packet): nat {
    (if packet.encryptedAt.Some? then packet.encryptedAt.value else 0)
    + if packet.payloads != [] && packet.payloads[|packet.payloads| - 1].kind == SKF then 8 else 4
  }

  /** The padding off `text` leaves `inner`. */
  predicate Strips(text: bytes, inner: bytes) {
    text != [] && |text| - 1 >= text[|text| - 1] && inner == text[..|text| - 1 - text[|text| - 1]]
  }

  lemma OpensIfAuthentic(p: Primitives, keys: Keys, d: bytes, at: nat)
    requires p.Ideal() && keys.Valid() && at + keys.cipher.IvLen() <= TagAt(keys, d)
    ensures forall text :: OpenBody(p, keys, d, at) == Ok(text) <==> Authenticates(p, keys, d, at, text)
  {
    var c, end := keys.cipher, TagAt(keys, d);
    if !c.IsAead() {
      MacIsHmac(p, keys.integrity, keys.integrityKey, d[..end], d[end..]);
    }
  }

  /** The number and the total of a fragment. */
  function NumberAt(d: bytes, at: nat, kind: byte): Option<(u16, u16)>
    requires 4 <= at <= |d|
  {
    if kind == SKF then Some((FromBe16(d[at - 4..at - 2]), FromBe16(d[at - 2..at]))) else None
  }

  /** `out` is what stands in a datagram that authenticates. */
  ghost predicate Reveals(p: Primitives, keys: Keys, packet: Packet, out: Decrypted) {
    var d, at := packet.raw, IvAt(packet);
    && packet.encryptedAt.Some? && packet.payloads != [] && at <= |d|
    && out.nextPayload == d[packet.encryptedAt.value]
    && out.fragment == NumberAt(d, at, packet.payloads[|packet.payloads| - 1].kind)
    && exists text :: Authenticates(p, keys, d, at, text) && Strips(text, out.inner)
  }

  lemma UnpadStrips(text: bytes, inner: bytes)
    ensures Unpad(text) == Ok(inner) <==> Strips(text, inner)
  {
    if text != [] {
      var padded := text[..|text| - 1];
      assert |padded| >= text[|text| - 1] ==> padded[..|padded| - text[|text| - 1]] == text[..|text| - 1 - text[|text| - 1]];
    }
  }

  lemma DecryptOpens(p: Primitives, keys: Keys, packet: Packet)
    requires packet.encryptedAt.Some? && packet.payloads != [] && IvAt(packet) + keys.cipher.IvLen() <= TagAt(keys, packet.raw)
    ensures var d, at := packet.raw, IvAt(packet);
            Decrypt(p, packet, keys) == match OpenBody(p, keys, d, at)
              case Err(e) => Err(e)
              case Ok(text) =>
                match Unpad(text)
                case Err(e) => Err(e)
                case Ok(inner) => Ok(Decrypted(d[packet.encryptedAt.value], inner, NumberAt(d, at, packet.payloads[|packet.payloads| - 1].kind)))
  {
  }

  lemma BodyReveals(p: Primitives, keys: Keys, packet: Packet, out: Decrypted)
    requires p.Ideal() && keys.Valid() && packet.encryptedAt.Some? && packet.payloads != []
    requires IvAt(packet) + keys.cipher.IvLen() <= TagAt(keys, packet.raw)
    requires out.nextPayload == packet.raw[packet.encryptedAt.value]
    requires out.fragment == NumberAt(packet.raw, IvAt(packet), packet.payloads[|packet.payloads| - 1].kind)
    ensures Decrypt(p, packet, keys) == Ok(out) <==> Reveals(p, keys, packet, out)
  {
    var d, at := packet.raw, IvAt(packet);
    OpensIfAuthentic(p, keys, d, at);
    DecryptOpens(p, keys, packet);
    var r := OpenBody(p, keys, d, at);
    if r.Ok? {
      assert Authenticates(p, keys, d, at, r.value);
      UnpadStrips(r.value, out.inner);
    }
  }

  /** What a receiver takes out of a datagram is what it authenticates, and
      nothing else is taken: under an AEAD the cipher opens all after the IV
      with all before it as additional data, under CBC the last bytes are the
      HMAC of all before them. */
  lemma DecryptsAuthentic(p: Primitives, keys: Keys, packet: Packet, out: Decrypted)
    requires p.Ideal() && keys.Valid()
    ensures Decrypt(p, packet, keys) == Ok(out) <==> Reveals(p, keys, packet, out)
  {
    if packet.encryptedAt.Some? && packet.payloads != [] && IvAt(packet) + keys.cipher.IvLen() <= TagAt(keys, packet.raw) {
      if out.nextPayload == packet.raw[packet.encryptedAt.value]
         && out.fragment == NumberAt(packet.raw, IvAt(packet), packet.payloads[|packet.payloads| - 1].kind)
      {
        BodyReveals(p, keys, packet, out);
      }
    }
  }

  // ---- a sealed datagram, byte by byte ------------------------------------------

  /** The 28 bytes of the header. */
  predicate HasHeader(d: bytes, m: Message, kind: byte) {
    && HEADER_LEN <= |d| < 0x1_0000_0000
    && d[..8] == Be64(m.initiatorSpi) && d[8..16] == Be64(m.responderSpi)
    && d[16] == kind && d[17] == 0x20 && d[18] == m.exchange.Id()
    && d[19] == (if m.fromInitiator then 0x08 else 0) + (if m.isResponse then 0x20 else 0)
    && d[20..24] == Be32(m.id) && d[24..28] == Be32(|d|)
  }

  /** The Encrypted payload's own fields, up to the IV. */
  predicate HasFields(d: bytes, next: byte, fragment: Option<(u16, u16)>) {
    && HEADER_LEN + 4 <= |d| < 0x1_0000 + HEADER_LEN
    && d[28] == next && d[29] == 0 && d[30..32] == Be16(|d| - HEADER_LEN)
    && (fragment.Some? ==> |d| >= HEADER_LEN + 8 && d[32..34] == Be16(fragment.value.0) && d[34..36] == Be16(fragment.value.1))
  }

  /** The IV: `random`, or under an AEAD the message id, the number of the
      fragment or 0, and the direction. */
  predicate HasIv(iv: bytes, m: Message, c: Cipher, fragment: Option<(u16, u16)>, random: bytes) {
    if c.IsAead() then
      && |iv| == 8 && iv[..4] == Be32(m.id) && iv[4..6] == Be16(if fragment.Some? then fragment.value.0 else 0)
      && iv[6] == 0 && iv[7] == if m.isResponse then 1 else 0
    else iv == random
  }

  /** The padded plaintext `text` sealed in `d`, whose IV stands at `at`. */
  ghost predicate Protects(p: Primitives, keys: Keys, d: bytes, at: nat, text: bytes) {
    var c := keys.cipher;
    var body := at + c.IvLen();
    if c.IsAead() then
      body <= |d| && d[body..] == p.seal(c, keys.encryption, d[at..body], d[..at], text)
    else
      var end := |d| - keys.integrity.IcvLen();
      && body <= end
      && d[body..end] == p.seal(c, keys.encryption, d[at..body], [], text)
      && IsMac(p, keys.integrity, keys.integrityKey, d[..end], d[end..])
  }

  lemma PaddedIs(plain: bytes, c: Cipher)
    ensures IsPadded(Padded(plain, c), plain, c)
  {
    assert |Padded(plain, c)| == PaddedLen(|plain|, c);
  }

  lemma FrontIs(m: Message, next: byte, payloadLen: u16, fragment: Option<(u16, u16)>, rest: bytes, d: bytes)
    requires d == Front(m.HeaderOf(if fragment.Some? then SKF else SK, HEADER_LEN + payloadLen), next, payloadLen, fragment) + rest
    requires |d| == HEADER_LEN + payloadLen
    ensures HasHeader(d, m, if fragment.Some? then SKF else SK) && HasFields(d, next, fragment)
  {
    var h := m.HeaderOf(if fragment.Some? then SKF else SK, HEADER_LEN + payloadLen);
    assert d[..8] == Be64(m.initiatorSpi) && d[8..16] == Be64(m.responderSpi);
    assert d[20..24] == Be32(m.id) && d[24..28] == Be32(|d|);
    assert d[30..32] == Be16(payloadLen);
    if fragment.Some? {
      assert d[32..34] == Be16(fragment.value.0) && d[34..36] == Be16(fragment.value.1);
    }
  }

  lemma IvIs(m: Message, c: Cipher, fragment: Option<(u16, u16)>, random: bytes)
    ensures HasIv(MessageIv(m, c, fragment, random), m, c, fragment, random)
  {
  }

  lemma BodyProtects(p: Primitives, keys: Keys, front: bytes, iv: bytes, sealed: bytes, text: bytes, d: bytes)
    requires p.Ideal() && keys.Valid() && |iv| == keys.cipher.IvLen()
    requires sealed == p.seal(keys.cipher, keys.encryption, iv, Aad(keys.cipher, front), text)
    requires d == front + iv + sealed + Tag(p, keys, front + iv + sealed)
    ensures Protects(p, keys, d, |front|, text)
    ensures d[|front|..|front| + keys.cipher.IvLen()] == iv
  {
    var c, body := keys.cipher, front + iv + sealed;
    assert d[|front|..|front| + c.IvLen()] == iv && d[..|front|] == front;
    if c.IsAead() {
      assert d == body && d[|front| + c.IvLen()..] == sealed;
    } else {
      MacLength(p, keys.integrity, keys.integrityKey, body);
      MacIsHmac(p, keys.integrity, keys.integrityKey, body, Tag(p, keys, body));
      assert d[..|body|] == body && d[|body|..] == Tag(p, keys, body) && d[|front| + c.IvLen()..|body|] == sealed;
    }
  }

  /** A sealed datagram: its header and fields, its IV, and after it what the
      cipher makes of the padded plaintext, with all before the IV as
      additional data under an AEAD; under CBC the HMAC of all comes last. */
  ghost predicate IsSealed(p: Primitives, m: Message, keys: Keys, next: byte, plain: bytes, fragment: Option<(u16, u16)>, random: bytes,
                           d: bytes, text: bytes) {
    var c, at := keys.cipher, HEADER_LEN + (if fragment.Some? then 8 else 4);
    && IsPadded(text, plain, c)
    && HasHeader(d, m, if fragment.Some? then SKF else SK) && HasFields(d, next, fragment)
    && at + c.IvLen() <= |d| && HasIv(d[at..at + c.IvLen()], m, c, fragment, random)
    && Protects(p, keys, d, at, text)
  }

  lemma PartsAreSealed(p: Primitives, m: Message, keys: Keys, next: byte, plain: bytes, fragment: Option<(u16, u16)>, random: bytes,
                       payloadLen: u16, iv: bytes, sealed: bytes, d: bytes)
    requires p.Ideal() && keys.Valid() && |iv| == keys.cipher.IvLen() && HasIv(iv, m, keys.cipher, fragment, random)
    requires |d| == HEADER_LEN + payloadLen
    requires var front := Front(m.HeaderOf(if fragment.Some? then SKF else SK, HEADER_LEN + payloadLen), next, payloadLen, fragment);
             && sealed == p.seal(keys.cipher, keys.encryption, iv, Aad(keys.cipher, front), Padded(plain, keys.cipher))
             && d == front + iv + sealed + Tag(p, keys, front + iv + sealed)
    ensures IsSealed(p, m, keys, next, plain, fragment, random, d, Padded(plain, keys.cipher))
  {
    var front := Front(m.HeaderOf(if fragment.Some? then SKF else SK, HEADER_LEN + payloadLen), next, payloadLen, fragment);
    var tag := Tag(p, keys, front + iv + sealed);
    PaddedIs(plain, keys.cipher);
    BodyProtects(p, keys, front, iv, sealed, Padded(plain, keys.cipher), d);
    Grouped(front + iv, sealed, tag);
    Grouped(front, iv, sealed + tag);
    FrontIs(m, next, payloadLen, fragment, iv + (sealed + tag), d);
  }

  /** What `Seal` yields is laid out so, and authenticated so. */
  lemma SealedIsProtected(p: Primitives, m: Message, keys: Keys, next: byte, plain: bytes, fragment: Option<(u16, u16)>, random: bytes)
    returns (text: bytes)
    requires p.Ideal() && keys.Valid() && RandomFits(keys.cipher, random)
    requires Seal(p, m, keys, next, plain, fragment, random).Ok?
    ensures IsSealed(p, m, keys, next, plain, fragment, random, Seal(p, m, keys, next, plain, fragment, random).value, text)
  {
    var iv := MessageIv(m, keys.cipher, fragment, random);
    var payloadLen := PayloadLen(keys, |iv|, plain, fragment.Some?);
    var sealed := SealedLayout(p, m, keys, next, plain, fragment, random, m.HeaderOf(if fragment.Some? then SKF else SK, HEADER_LEN + payloadLen));
    text := Padded(plain, keys.cipher);
    IvIs(m, keys.cipher, fragment, random);
    PartsAreSealed(p, m, keys, next, plain, fragment, random, payloadLen, iv, sealed, Seal(p, m, keys, next, plain, fragment, random).value);
  }

  // ---- the size of datagrams ----------------------------------------------------------

  /** The least size of a fragment with nothing in it, and a byte more than a
      block of padding. */
  function LeastFragment(keys: Keys): nat {
    36 + keys.cipher.IvLen() + keys.cipher.BlockLen() + 1 + keys.cipher.IcvLen() + keys.integrity.IcvLen()
  }

  /** Under a limit that leaves room for a byte in a fragment, no datagram of a
      message is over it, and a message is split only if its one datagram
      would be. */
  lemma DatagramsFit(p: Primitives, m: Message, keys: Keys, maxLen: nat, randoms: nat -> bytes)
    requires p.Ideal() && keys.Valid() && AllRandomFit(keys.cipher, randoms) && maxLen > LeastFragment(keys)
    requires EncodeEncrypted(p, m, keys, Some(maxLen), randoms).Ok?
    ensures var ds := EncodeEncrypted(p, m, keys, Some(maxLen), randoms).value;
            && (forall k :: 0 <= k < |ds| ==> |ds[k]| <= maxLen)
            && (Seal(p, m, keys, First(m.payloads), EncodeChain(m.payloads).value, None, randoms(0)).Ok? ==>
                  var whole := Seal(p, m, keys, First(m.payloads), EncodeChain(m.payloads).value, None, randoms(0)).value;
                  if |whole| <= maxLen then ds == [whole] else |ds| >= 2)
  {
    var chain := EncodeChain(m.payloads).value;
    assert RandomFits(keys.cipher, randoms(0));
    if Seal(p, m, keys, First(m.payloads), chain, None, randoms(0)).Ok? {
      SealedOpens(p, m, keys, First(m.payloads), chain, None, randoms(0));
    }
    if Splits(keys, |chain|, Some(maxLen)) {
      FragmentsFitAndOpen(p, m, keys, maxLen, randoms);
    }
  }

  lemma {:induction false} ChunksFull(chain: bytes, n: nat)
    requires n > 0
    ensures var c := Chunks(chain, n);
            && (forall k :: 0 <= k < |c| - 1 ==> |c[k]| == n)
            && (c != [] ==> 1 <= |c[|c| - 1]| <= n)
    decreases |chain|
  {
    if |chain| > n {
      ChunksFull(chain[n..], n);
    }
  }

  /** And no fragment but the last carries less than there is room for. */
  lemma PiecesAreFull(m: Message, keys: Keys, maxLen: nat)
    requires EncodeChain(m.payloads).Ok? && maxLen > LeastFragment(keys)
    ensures var chunks := CutOf(m, keys, maxLen).chunks;
            && Reassembly.Join(chunks) == EncodeChain(m.payloads).value
            && (forall k :: 0 <= k < |chunks| - 1 ==> |chunks[k]| == maxLen - LeastFragment(keys))
            && (chunks != [] ==> 1 <= |chunks[|chunks| - 1]| <= maxLen - LeastFragment(keys))
  {
    ChunksFull(EncodeChain(m.payloads).value, maxLen - LeastFragment(keys));
    ChunksJoin(EncodeChain(m.payloads).value, maxLen - LeastFragment(keys));
  }
}
