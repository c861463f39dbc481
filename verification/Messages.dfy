/** IKE messages on the wire: the header, the Encrypted payload and its
    fragments (RFC 7296 sections 3.1 and 3.14, RFC 7383 section 2.5). */
module Messages {
  import opened Bytes
  import opened Crypto
  import opened Payloads
  import opened Reassembly

  const HEADER_LEN := 28
  const VERSION: byte := 0x20
  const FLAG_INITIATOR := 0x08
  const FLAG_RESPONSE := 0x20

  datatype Exchange = IkeSaInit | IkeAuth | CreateChildSa | Informational {
    function Id(): byte {
      match this
      case IkeSaInit => 34
      case IkeAuth => 35
      case CreateChildSa => 36
      case Informational => 37
    }
  }

  function ExchangeFromId(id: byte): Option<Exchange> {
    if id == 34 then Some(IkeSaInit)
    else if id == 35 then Some(IkeAuth)
    else if id == 36 then Some(CreateChildSa)
    else if id == 37 then Some(Informational)
    else None
  }

  datatype Header = Header(initiatorSpi: u64, responderSpi: u64, nextPayload: byte, exchange: Exchange,
                           fromInitiator: bool, isResponse: bool, messageId: u32, length: u32)
  {
    function Flags(): byte {
      (if fromInitiator then FLAG_INITIATOR else 0) + (if isResponse then FLAG_RESPONSE else 0)
    }

    function Encode(): (b: bytes)
      ensures |b| == HEADER_LEN
    {
      Be64(initiatorSpi) + Be64(responderSpi) + [nextPayload, VERSION, exchange.Id(), Flags()]
      + Be32(messageId) + Be32(length)
    }
  }

  function DecodeHeader(b: bytes): Result<Header> {
    if |b| < 18 then Err(Malformed)
    else if b[17] / 16 != 2 then Err(Malformed)
    else if |b| < HEADER_LEN then Err(Malformed)
    else match ExchangeFromId(b[18])
      case None => Err(Malformed)
      case Some(exchange) =>
        Ok(Header(FromBe64(b[..8]), FromBe64(b[8..16]), b[16], exchange,
                  (b[19] / FLAG_INITIATOR) % 2 == 1, (b[19] / FLAG_RESPONSE) % 2 == 1,
                  FromBe32(b[20..24]), FromBe32(b[24..28])))
  }

  lemma HeaderRoundTrip(h: Header, rest: bytes)
    ensures DecodeHeader(h.Encode() + rest) == Ok(h)
  {
    var b := h.Encode() + rest;
    assert b[..8] == Be64(h.initiatorSpi) && b[8..16] == Be64(h.responderSpi);
    assert b[20..24] == Be32(h.messageId) && b[24..28] == Be32(h.length);
    Be64RoundTrip(h.initiatorSpi);
    Be64RoundTrip(h.responderSpi);
    Be32RoundTrip(h.messageId);
    Be32RoundTrip(h.length);
  }

  // ---- a message received -----------------------------------------------

  /** The Encrypted payload still encrypted, `encryptedAt` its header. */
  datatype Packet = Packet(header: Header, payloads: seq<RawPayload>, raw: bytes, encryptedAt: Option<nat>)

  predicate IsProtected(kind: byte) { kind == SK || kind == SKF }

  /** The payloads from `offset` on; an Encrypted payload is the last. */
  function ParsePayloads(b: bytes, offset: nat, kind: byte): Result<(seq<RawPayload>, Option<nat>)>
    requires offset <= |b|
    decreases |b| - offset
  {
    if kind == NO_NEXT then Ok(([], None))
    else if |b| - offset < 4 then Err(Malformed)
    else
      var length := FromBe16(b[offset + 2..offset + 4]);
      if IsProtected(kind) then
        if length < 4 || offset + length != |b| then Err(Malformed)
        else Ok(([RawPayload(kind, b[offset + 4..])], Some(offset)))
      else if length < 4 || offset + length > |b| then Err(Malformed)
      else
        var (rest, at) :- ParsePayloads(b, offset + length, b[offset]);
        Ok(([RawPayload(kind, b[offset + 4..offset + length])] + rest, at))
  }

  function Parse(b: bytes): Result<Packet> {
    var header :- DecodeHeader(b);
    if header.length != |b| || |b| < HEADER_LEN then Err(Malformed)
    else
      var (payloads, at) :- ParsePayloads(b, HEADER_LEN, header.nextPayload);
      Ok(Packet(header, payloads, b, at))
  }

  function Continue(payloads: seq<RawPayload>, r: Result<(seq<RawPayload>, Option<nat>)>): Result<(seq<RawPayload>, Option<nat>)> {
    if r.Ok? then Ok((payloads + r.value.0, r.value.1)) else r
  }

  method ParsePacket(b: bytes) returns (r: Result<Packet>)
    ensures r == Parse(b)
  {
    var header := DecodeHeader(b);
    if header.Err? {
      return Err(header.error);
    }
    if header.value.length != |b| || |b| < HEADER_LEN {
      return Err(Malformed);
    }
    var payloads: seq<RawPayload> := [];
    var offset, kind := HEADER_LEN, header.value.nextPayload;
    assert forall x: (seq<RawPayload>, Option<nat>) :: [] + x.0 == x.0;
    while kind != NO_NEXT
      invariant HEADER_LEN <= offset <= |b|
      invariant ParsePayloads(b, HEADER_LEN, header.value.nextPayload) == Continue(payloads, ParsePayloads(b, offset, kind))
      decreases |b| - offset
    {
      if |b| - offset < 4 {
        return Err(Malformed);
      }
      var length := FromBe16(b[offset + 2..offset + 4]);
      if IsProtected(kind) {
        if length < 4 || offset + length != |b| {
          return Err(Malformed);
        }
        return Ok(Packet(header.value, payloads + [RawPayload(kind, b[offset + 4..])], b, Some(offset)));
      }
      if length < 4 || offset + length > |b| {
        return Err(Malformed);
      }
      var payload := RawPayload(kind, b[offset + 4..offset + length]);
      ghost var tail := ParsePayloads(b, offset + length, b[offset]);
      assert tail.Ok? ==> payloads + ([payload] + tail.value.0) == payloads + [payload] + tail.value.0;
      payloads := payloads + [payload];
      kind := b[offset];
      offset := offset + length;
    }
    assert payloads + [] == payloads;
    r := Ok(Packet(header.value, payloads, b, None));
  }

  /** The keys of one direction of an IKE SA. */
  datatype Keys = Keys(cipher: Cipher, integrity: Integrity, encryption: bytes, integrityKey: bytes) {
    /** As `derive` makes them, for the algorithms a configuration can name. */
    ghost predicate Valid() {
      && |encryption| == cipher.KeyLen()
      && (cipher.IsAead() <==> integrity.NoIntegrity?)
    }
  }

  /** The padding off: the last byte is its length. */
  function Unpad(plaintext: bytes): Result<bytes> {
    if plaintext == [] then Err(Malformed)
    else
      var padded := plaintext[..|plaintext| - 1];
      var padLen := plaintext[|plaintext| - 1];
      if |padded| < padLen then Err(Malformed) else Ok(padded[..|padded| - padLen])
  }

  /** Where the tag of a datagram begins. */
  function TagAt(keys: Keys, d: bytes): int {
    |d| - (if keys.cipher.IsAead() then keys.cipher.IcvLen() else keys.integrity.IcvLen())
  }

  function OpenBody(p: Primitives, keys: Keys, raw: bytes, ivAt: nat): Result<bytes>
    requires ivAt + keys.cipher.IvLen() <= TagAt(keys, raw)
  {
    var c := keys.cipher;
    var iv, end := raw[ivAt..ivAt + c.IvLen()], TagAt(keys, raw);
    if c.IsAead() then p.Decrypt(c, keys.encryption, iv, raw[..ivAt], raw[ivAt + c.IvLen()..])
    else if !p.Verify(keys.integrity, keys.integrityKey, raw[..end], raw[end..]) then Err(Crypto)
    else p.Decrypt(c, keys.encryption, iv, [], raw[ivAt + c.IvLen()..end])
  }

  function Decrypt(p: Primitives, packet: Packet, keys: Keys): Result<Decrypted> {
    if packet.encryptedAt.None? || packet.payloads == [] then Err(Malformed)
    else
      var offset := packet.encryptedAt.value;
      var raw := packet.raw;
      var fragmented := packet.payloads[|packet.payloads| - 1].kind == SKF;
      if |raw| <= offset || (fragmented && |raw| < offset + 8) then Err(Malformed)
      else
        var fragment := if fragmented then Some((FromBe16(raw[offset + 4..offset + 6]), FromBe16(raw[offset + 6..offset + 8]))) else None;
        var ivAt := if fragmented then offset + 8 else offset + 4;
        var c := keys.cipher;
        if TagAt(keys, raw) < ivAt + c.IvLen() then Err(Malformed)
        else
          var plaintext :- OpenBody(p, keys, raw, ivAt);
          var inner :- Unpad(plaintext);
          Ok(Decrypted(raw[offset], inner, fragment))
  }

  // ---- a message to send ----------------------------------------------------

  datatype Message = Message(exchange: Exchange, isResponse: bool, fromInitiator: bool, id: u32,
                             initiatorSpi: u64, responderSpi: u64, payloads: seq<RawPayload>)
  {
    function HeaderOf(next: byte, length: u32): Header {
      Header(initiatorSpi, responderSpi, next, exchange, fromInitiator, isResponse, id, length)
    }
  }

  /** The datagram of an unencrypted message; its length fits 32 bits. */
  function EncodePlain(m: Message): Result<bytes> {
    var chain :- EncodeChain(m.payloads);
    if HEADER_LEN + |chain| >= 0x1_0000_0000 then Err(TooLong)
    else Ok(m.HeaderOf(First(m.payloads), HEADER_LEN + |chain|).Encode() + chain)
  }

  /** `len` bytes with the padding and its length byte. */
  function PaddedLen(len: nat, c: Cipher): (n: nat)
    ensures n > len && n % c.BlockLen() == 0 && n <= len + c.BlockLen()
  {
    if c.BlockLen() == 1 then len + 1 else (len / 16 + 1) * 16
  }

  function Padded(plain: bytes, c: Cipher): bytes {
    var padLen: byte := PaddedLen(|plain|, c) - |plain| - 1;
    plain + Repeat(0, padLen) + [padLen]
  }

  /** The AEAD IV: message id, fragment number (0 for none), direction. */
  function AeadIv(id: u32, number: u16, isResponse: bool): (iv: bytes)
    ensures |iv| == AEAD_IV_LEN
  {
    Be32(id) + Be16(number) + [0, if isResponse then 1 else 0]
  }

  /** No two messages, fragments or directions share an IV. */
  lemma AeadIvIsInjective(id: u32, number: u16, isResponse: bool, id': u32, number': u16, isResponse': bool)
    requires AeadIv(id, number, isResponse) == AeadIv(id', number', isResponse')
    ensures id == id' && number == number' && isResponse == isResponse'
  {
    var a, b := AeadIv(id, number, isResponse), AeadIv(id', number', isResponse');
    assert a[..4] == Be32(id) && b[..4] == Be32(id');
    Be32RoundTrip(id);
    Be32RoundTrip(id');
    assert a[4..6] == Be16(number) && b[4..6] == Be16(number');
    assert FromBe16(Be16(number)) == number && FromBe16(Be16(number')) == number';
    assert a[7] == b[7];
  }

  function FragmentField(fragment: Option<(u16, u16)>): bytes {
    if fragment.Some? then Be16(fragment.value.0) + Be16(fragment.value.1) else []
  }

  function MessageIv(m: Message, c: Cipher, fragment: Option<(u16, u16)>, random: bytes): bytes {
    if c.IsAead() then AeadIv(m.id, if fragment.Some? then fragment.value.0 else 0, m.isResponse) else random
  }

  /** Size of the Encrypted payload around `plain`. */
  function PayloadLen(keys: Keys, ivLen: nat, plain: bytes, fragmented: bool): nat {
    4 + (if fragmented then 4 else 0) + ivLen + PaddedLen(|plain|, keys.cipher)
    + keys.cipher.IcvLen() + keys.integrity.IcvLen()
  }

  /** What comes before the IV: the header, the Encrypted payload's own. */
  function Front(h: Header, next: byte, payloadLen: u16, fragment: Option<(u16, u16)>): bytes {
    h.Encode() + [next, 0] + Be16(payloadLen) + FragmentField(fragment)
  }

  function Tag(p: Primitives, keys: Keys, body: bytes): bytes {
    if keys.cipher.IsAead() then [] else p.Mac(keys.integrity, keys.integrityKey, body)
  }

  function Aad(c: Cipher, front: bytes): bytes {
    if c.IsAead() then front else []
  }

  /** One datagram carrying `plain` in an Encrypted (Fragment) payload. */
  function Seal(p: Primitives, m: Message, keys: Keys, next: byte, plain: bytes, fragment: Option<(u16, u16)>, random: bytes): Result<bytes> {
    var c := keys.cipher;
    var iv := MessageIv(m, c, fragment, random);
    var payloadLen := PayloadLen(keys, |iv|, plain, fragment.Some?);
    if payloadLen >= 0x1_0000 then Err(TooLong)
    else
      var front := Front(m.HeaderOf(if fragment.Some? then SKF else SK, HEADER_LEN + payloadLen), next, payloadLen, fragment);
      var sealed :- p.Encrypt(c, keys.encryption, iv, Aad(c, front), Padded(plain, c));
      var body := front + iv + sealed;
      Ok(body + Tag(p, keys, body))
  }

  method MakeIv(m: Message, cipher: Cipher, fragment: Option<(u16, u16)>, random: bytes) returns (iv: bytes)
    ensures iv == MessageIv(m, cipher, fragment, random)
  {
    iv := random;
    if cipher.IsAead() {
      var number := if fragment.Some? then fragment.value.0 else 0;
      iv := Be32(m.id);
      iv := iv + Be16(number);
      iv := iv + [0];
      iv := iv + [if m.isResponse then 1 else 0];
    }
  }

  method MakeFront(header: Header, next: byte, payloadLen: u16, fragment: Option<(u16, u16)>) returns (out: bytes)
    ensures out == Front(header, next, payloadLen, fragment)
  {
    out := header.Encode();
    out := out + [next];
    out := out + [0];
    out := out + Be16(payloadLen);
    if fragment.Some? {
      out := out + Be16(fragment.value.0);
      out := out + Be16(fragment.value.1);
    }
  }

  method MakePadded(plain: bytes, cipher: Cipher) returns (plaintext: bytes)
    ensures plaintext == Padded(plain, cipher) && |plaintext| == PaddedLen(|plain|, cipher)
  {
    var padLen := PaddedLen(|plain|, cipher) - |plain| - 1;
    plaintext := plain + Repeat(0, padLen);
    plaintext := plaintext + [padLen];
  }

  method SealDatagram(p: Primitives, m: Message, keys: Keys, next: byte, plain: bytes, fragment: Option<(u16, u16)>, random: bytes)
    returns (r: Result<bytes>)
    ensures r == Seal(p, m, keys, next, plain, fragment, random)
  {
    var cipher := keys.cipher;
    var plaintext := MakePadded(plain, cipher);
    var iv := MakeIv(m, cipher, fragment, random);
    var fragmentLen := if fragment.Some? then 4 else 0;
    var payloadLen := 4 + fragmentLen + |iv| + |plaintext| + cipher.IcvLen() + keys.integrity.IcvLen();
    assert payloadLen == PayloadLen(keys, |iv|, plain, fragment.Some?);
    if payloadLen >= 0x1_0000 {
      return Err(TooLong);
    }
    var kind := if fragment.Some? then SKF else SK;
    var front := MakeFront(m.HeaderOf(kind, HEADER_LEN + payloadLen), next, payloadLen, fragment);
    var sealed := p.Encrypt(cipher, keys.encryption, iv, if cipher.IsAead() then front else [], plaintext);
    if sealed.Err? {
      return Err(sealed.error);
    }
    var out := front + iv;
    out := out + sealed.value;
    if !cipher.IsAead() {
      out := out + p.Mac(keys.integrity, keys.integrityKey, out);
    } else {
      assert out + [] == out;
    }
    r := Ok(out);
  }

  /** The chain in pieces of `n` bytes, the last one shorter. */
  function Chunks(chain: bytes, n: nat): seq<bytes>
    requires n > 0
  {
    if chain == [] then []
    else if |chain| <= n then [chain]
    else [chain[..n]] + Chunks(chain[n..], n)
  }

  /** What every fragment costs besides its piece, at the most. */
  function Overhead(keys: Keys): nat {
    HEADER_LEN + 8 + keys.cipher.IvLen() + keys.cipher.BlockLen() + 1 + keys.cipher.IcvLen() + keys.integrity.IcvLen()
  }

  function WholeLen(keys: Keys, len: nat): nat {
    HEADER_LEN + 4 + keys.cipher.IvLen() + PaddedLen(len, keys.cipher) + keys.cipher.IcvLen() + keys.integrity.IcvLen()
  }

  predicate Splits(keys: Keys, len: nat, maxLen: Option<nat>) {
    maxLen.Some? && WholeLen(keys, len) > maxLen.value > Overhead(keys)
  }

  /** The results of `f` on 1 to `n`, or the first error. */
  function Collect(f: nat -> Result<bytes>, n: nat): Result<seq<bytes>> {
    if n == 0 then Ok([])
    else
      var before :- Collect(f, n - 1);
      var one :- f(n);
      Ok(before + [one])
  }

  lemma {:induction false} CollectFails(f: nat -> Result<bytes>, k: nat, n: nat)
    requires k <= n && Collect(f, k).Err?
    ensures Collect(f, n) == Collect(f, k)
    decreases n
  {
    if k < n {
      CollectFails(f, k, n - 1);
    }
  }

  lemma {:induction false} CollectAt(f: nat -> Result<bytes>, n: nat, k: nat)
    requires k < n && Collect(f, n).Ok?
    ensures |Collect(f, n).value| == n && f(k + 1) == Ok(Collect(f, n).value[k])
    decreases n
  {
    if n > 1 {
      CollectAt(f, n - 1, if k < n - 1 then k else 0);
    }
  }

  /** Fragment `number` of a cut message. */
  function Fragment(p: Primitives, m: Message, keys: Keys, cut: Cut, randoms: nat -> bytes): nat -> Result<bytes>
    requires |cut.chunks| < 0x1_0000
  {
    (number: nat) =>
      if 1 <= number <= |cut.chunks|
      then Seal(p, m, keys, if number == 1 then cut.first else NO_NEXT, cut.chunks[number - 1], Some((number, |cut.chunks|)), randoms(number))
      else Err(TooLong)
  }

  /** The datagrams of an encrypted message: one, or fragments when it would
      exceed `maxLen`. `randoms` are the IVs of a CBC cipher. */
  function EncodeEncrypted(p: Primitives, m: Message, keys: Keys, maxLen: Option<nat>, randoms: nat -> bytes): Result<seq<bytes>> {
    var chain :- EncodeChain(m.payloads);
    var first := First(m.payloads);
    if Splits(keys, |chain|, maxLen) then
      var chunks := Chunks(chain, maxLen.value - Overhead(keys));
      if |chunks| >= 0x1_0000 then Err(TooLong)
      else Collect(Fragment(p, m, keys, Cut(first, chunks), randoms), |chunks|)
    else
      var one :- Seal(p, m, keys, first, chain, None, randoms(0));
      Ok([one])
  }

  method EncodeFragments(p: Primitives, m: Message, keys: Keys, cut: Cut, randoms: nat -> bytes) returns (r: Result<seq<bytes>>)
    requires |cut.chunks| < 0x1_0000
    ensures r == Collect(Fragment(p, m, keys, cut, randoms), |cut.chunks|)
  {
    var datagrams: seq<bytes>, index := [], 0;
    ghost var f := Fragment(p, m, keys, cut, randoms);
    while index < |cut.chunks|
      invariant 0 <= index <= |cut.chunks|
      invariant Collect(f, index) == Ok(datagrams)
    {
      var next := if index == 0 then cut.first else NO_NEXT;
      var one := SealDatagram(p, m, keys, next, cut.chunks[index], Some((index + 1, |cut.chunks|)), randoms(index + 1));
      index := index + 1;
      assert one == f(index);
      if one.Err? {
        CollectFails(f, index, |cut.chunks|);
        return Err(one.error);
      }
      datagrams := datagrams + [one.value];
    }
    r := Ok(datagrams);
  }

  method EncodeDatagrams(p: Primitives, m: Message, keys: Keys, maxLen: Option<nat>, randoms: nat -> bytes) returns (r: Result<seq<bytes>>)
    ensures r == EncodeEncrypted(p, m, keys, maxLen, randoms)
  {
    var first, chain := AppendChain(m.payloads, []);
    EncodeChainFails(m.payloads);
    if first.Err? {
      return Err(first.error);
    }
    assert [] + EncodeChain(m.payloads).value == EncodeChain(m.payloads).value;
    if !Splits(keys, |chain|, maxLen) {
      var one := SealDatagram(p, m, keys, first.value, chain, None, randoms(0));
      return if one.Ok? then Ok([one.value]) else Err(one.error);
    }
    var chunks := Chunks(chain, maxLen.value - Overhead(keys));
    if |chunks| >= 0x1_0000 {
      return Err(TooLong);
    }
    r := EncodeFragments(p, m, keys, Cut(first.value, chunks), randoms);
  }

  // ---- round trips ------------------------------------------------------------

  ghost predicate RandomFits(c: Cipher, random: bytes) { c.IsAead() || |random| == c.IvLen() }

  /** The padding comes off exactly. */
  lemma UnpadPadded(plain: bytes, c: Cipher)
    ensures |Padded(plain, c)| == PaddedLen(|plain|, c) && Unpad(Padded(plain, c)) == Ok(plain)
  {
    var t := Padded(plain, c);
    assert t[..|t| - 1][..|plain|] == plain;
  }

  lemma FrontReads(h: Header, next: byte, payloadLen: u16, fragment: Option<(u16, u16)>, rest: bytes, d: bytes)
    requires d == Front(h, next, payloadLen, fragment) + rest
    ensures d[HEADER_LEN] == next && FromBe16(d[HEADER_LEN + 2..HEADER_LEN + 4]) == payloadLen
    ensures fragment.Some? ==>
      && FromBe16(d[HEADER_LEN + 4..HEADER_LEN + 6]) == fragment.value.0
      && FromBe16(d[HEADER_LEN + 6..HEADER_LEN + 8]) == fragment.value.1
  {
    assert d[HEADER_LEN + 2..HEADER_LEN + 4] == Be16(payloadLen);
    if fragment.Some? {
      assert d[HEADER_LEN + 4..HEADER_LEN + 6] == Be16(fragment.value.0);
      assert d[HEADER_LEN + 6..HEADER_LEN + 8] == Be16(fragment.value.1);
    }
  }

  lemma SealedParses(h: Header, next: byte, payloadLen: u16, fragment: Option<(u16, u16)>, rest: bytes, d: bytes)
    requires d == Front(h, next, payloadLen, fragment) + rest
    requires IsProtected(h.nextPayload) && h.length == |d| == HEADER_LEN + payloadLen
    ensures Parse(d) == Ok(Packet(h, [RawPayload(h.nextPayload, d[HEADER_LEN + 4..])], d, Some(HEADER_LEN)))
  {
    assert d == h.Encode() + d[HEADER_LEN..];
    HeaderRoundTrip(h, d[HEADER_LEN..]);
    FrontReads(h, next, payloadLen, fragment, rest, d);
  }

  lemma DecryptSteps(p: Primitives, keys: Keys, h: Header, d: bytes, ivAt: nat, text: bytes, plain: bytes, fragment: Option<(u16, u16)>)
    requires h.nextPayload == (if fragment.Some? then SKF else SK)
    requires ivAt == HEADER_LEN + (if fragment.Some? then 8 else 4) && ivAt + keys.cipher.IvLen() <= TagAt(keys, d)
    requires fragment.Some? ==>
      && FromBe16(d[HEADER_LEN + 4..HEADER_LEN + 6]) == fragment.value.0
      && FromBe16(d[HEADER_LEN + 6..HEADER_LEN + 8]) == fragment.value.1
    requires OpenBody(p, keys, d, ivAt) == Ok(text) && Unpad(text) == Ok(plain)
    ensures Decrypt(p, Packet(h, [RawPayload(h.nextPayload, d[HEADER_LEN + 4..])], d, Some(HEADER_LEN)), keys)
            == Ok(Decrypted(d[HEADER_LEN], plain, fragment))
  {
  }

  lemma BodyOpens(p: Primitives, keys: Keys, front: bytes, iv: bytes, text: bytes, sealed: bytes, d: bytes)
    requires p.Ideal() && keys.Valid() && |iv| == keys.cipher.IvLen()
    requires keys.cipher.IsAead() || |text| % AES_BLOCK_LEN == 0
    requires sealed == p.seal(keys.cipher, keys.encryption, iv, Aad(keys.cipher, front), text)
    requires d == front + iv + sealed + Tag(p, keys, front + iv + sealed)
    ensures |front| + keys.cipher.IvLen() <= TagAt(keys, d)
    ensures OpenBody(p, keys, d, |front|) == Ok(text)
  {
    var c := keys.cipher;
    var body := front + iv + sealed;
    assert |sealed| == |text| + c.IcvLen();
    MacLength(p, keys.integrity, keys.integrityKey, body);
    assert d[..|body|] == body && d[..|front|] == front;
    assert d[|front| + c.IvLen()..|body|] == sealed && d[|front|..|front| + c.IvLen()] == iv;
    if c.IsAead() {
      assert d == body;
    } else {
      assert d[|body|..] == Tag(p, keys, body);
    }
  }

  lemma SealedDecrypts(p: Primitives, keys: Keys, h: Header, next: byte, payloadLen: u16, plain: bytes, fragment: Option<(u16, u16)>,
                       iv: bytes, sealed: bytes, d: bytes)
    requires p.Ideal() && keys.Valid() && |iv| == keys.cipher.IvLen()
    requires h.nextPayload == (if fragment.Some? then SKF else SK)
    requires var front := Front(h, next, payloadLen, fragment);
             && sealed == p.seal(keys.cipher, keys.encryption, iv, Aad(keys.cipher, front), Padded(plain, keys.cipher))
             && d == front + iv + sealed + Tag(p, keys, front + iv + sealed)
    ensures Decrypt(p, Packet(h, [RawPayload(h.nextPayload, d[HEADER_LEN + 4..])], d, Some(HEADER_LEN)), keys)
            == Ok(Decrypted(next, plain, fragment))
  {
    var front := Front(h, next, payloadLen, fragment);
    assert d == front + (iv + sealed + Tag(p, keys, front + iv + sealed));
    FrontReads(h, next, payloadLen, fragment, iv + sealed + Tag(p, keys, front + iv + sealed), d);
    UnpadPadded(plain, keys.cipher);
    BodyOpens(p, keys, front, iv, Padded(plain, keys.cipher), sealed, d);
    DecryptSteps(p, keys, h, d, |front|, Padded(plain, keys.cipher), plain, fragment);
  }

  lemma PartsOpen(p: Primitives, keys: Keys, h: Header, next: byte, payloadLen: u16, plain: bytes, fragment: Option<(u16, u16)>,
                  iv: bytes, sealed: bytes, d: bytes)
    requires p.Ideal() && keys.Valid() && |iv| == keys.cipher.IvLen()
    requires h.nextPayload == (if fragment.Some? then SKF else SK) && h.length == |d| == HEADER_LEN + payloadLen
    requires var front := Front(h, next, payloadLen, fragment);
             && sealed == p.seal(keys.cipher, keys.encryption, iv, Aad(keys.cipher, front), Padded(plain, keys.cipher))
             && d == front + iv + sealed + Tag(p, keys, front + iv + sealed)
    ensures Parse(d).Ok? && Parse(d).value.header == h
    ensures Decrypt(p, Parse(d).value, keys) == Ok(Decrypted(next, plain, fragment))
  {
    var front := Front(h, next, payloadLen, fragment);
    var rest := iv + sealed + Tag(p, keys, front + iv + sealed);
    assert d == front + rest;
    SealedParses(h, next, payloadLen, fragment, rest, d);
    SealedDecrypts(p, keys, h, next, payloadLen, plain, fragment, iv, sealed, d);
  }

  lemma SealedLength(p: Primitives, keys: Keys, iv: bytes, aad: bytes, plain: bytes, body: bytes)
    requires p.Ideal() && keys.Valid()
    ensures |p.seal(keys.cipher, keys.encryption, iv, aad, Padded(plain, keys.cipher))| == PaddedLen(|plain|, keys.cipher) + keys.cipher.IcvLen()
    ensures |Padded(plain, keys.cipher)| % keys.cipher.BlockLen() == 0
    ensures |Tag(p, keys, body)| == keys.integrity.IcvLen()
  {
    UnpadPadded(plain, keys.cipher);
    MacLength(p, keys.integrity, keys.integrityKey, body);
    assert keys.cipher.IsAead() || |Padded(plain, keys.cipher)| % AES_BLOCK_LEN == 0;
  }

  /** The parts of a datagram. */
  lemma SealedLayout(p: Primitives, m: Message, keys: Keys, next: byte, plain: bytes, fragment: Option<(u16, u16)>, random: bytes, h: Header)
    returns (sealed: bytes)
    requires p.Ideal() && keys.Valid() && RandomFits(keys.cipher, random)
    requires Seal(p, m, keys, next, plain, fragment, random).Ok?
    requires var payloadLen := PayloadLen(keys, keys.cipher.IvLen(), plain, fragment.Some?);
             payloadLen < 0x1_0000 ==> h == m.HeaderOf(if fragment.Some? then SKF else SK, HEADER_LEN + payloadLen)
    ensures var d := Seal(p, m, keys, next, plain, fragment, random).value;
            var iv := MessageIv(m, keys.cipher, fragment, random);
            && |iv| == keys.cipher.IvLen()
            && PayloadLen(keys, |iv|, plain, fragment.Some?) < 0x1_0000
            && var front := Front(h, next, PayloadLen(keys, |iv|, plain, fragment.Some?), fragment);
            && sealed == p.seal(keys.cipher, keys.encryption, iv, Aad(keys.cipher, front), Padded(plain, keys.cipher))
            && d == front + iv + sealed + Tag(p, keys, front + iv + sealed)
            && |d| == HEADER_LEN + PayloadLen(keys, |iv|, plain, fragment.Some?)
  {
    var c := keys.cipher;
    var iv := MessageIv(m, c, fragment, random);
    var payloadLen := PayloadLen(keys, |iv|, plain, fragment.Some?);
    var front := Front(h, next, payloadLen, fragment);
    sealed := p.seal(c, keys.encryption, iv, Aad(c, front), Padded(plain, c));
    SealedLength(p, keys, iv, Aad(c, front), plain, front + iv + sealed);
  }

  /** What `seal` writes, `parse` and `decrypt` read back: the piece, its type
      and its number; and the datagram has the length the payload says. */
  lemma SealedOpens(p: Primitives, m: Message, keys: Keys, next: byte, plain: bytes, fragment: Option<(u16, u16)>, random: bytes)
    requires p.Ideal() && keys.Valid() && RandomFits(keys.cipher, random)
    requires Seal(p, m, keys, next, plain, fragment, random).Ok?
    ensures var d := Seal(p, m, keys, next, plain, fragment, random).value;
            && |d| == HEADER_LEN + PayloadLen(keys, keys.cipher.IvLen(), plain, fragment.Some?)
            && Parse(d).Ok?
            && Parse(d).value.header == m.HeaderOf(if fragment.Some? then SKF else SK, |d|)
            && Decrypt(p, Parse(d).value, keys) == Ok(Decrypted(next, plain, fragment))
  {
    var iv := MessageIv(m, keys.cipher, fragment, random);
    var payloadLen := PayloadLen(keys, |iv|, plain, fragment.Some?);
    var h := m.HeaderOf(if fragment.Some? then SKF else SK, HEADER_LEN + payloadLen);
    var sealed := SealedLayout(p, m, keys, next, plain, fragment, random, h);
    PartsOpen(p, keys, h, next, payloadLen, plain, fragment, iv, sealed, Seal(p, m, keys, next, plain, fragment, random).value);
  }

  lemma InTheMiddle(a: bytes, b: bytes, c: bytes)
    ensures |a + b + c| >= |a| + |b| && (a + b + c)[|a|..|a| + |b|] == b
  {
  }

  /** The IV of an AEAD datagram stands in it, as `AeadIv` makes it. */
  lemma SealedCarriesIv(p: Primitives, m: Message, keys: Keys, next: byte, plain: bytes, fragment: Option<(u16, u16)>, random: bytes)
    requires keys.cipher.IsAead() && Seal(p, m, keys, next, plain, fragment, random).Ok?
    ensures var d := Seal(p, m, keys, next, plain, fragment, random).value;
            var at := HEADER_LEN + (if fragment.Some? then 8 else 4);
            && |d| >= at + AEAD_IV_LEN
            && d[at..at + AEAD_IV_LEN] == AeadIv(m.id, if fragment.Some? then fragment.value.0 else 0, m.isResponse)
  {
    var iv := MessageIv(m, keys.cipher, fragment, random);
    var payloadLen := PayloadLen(keys, |iv|, plain, fragment.Some?);
    var front := Front(m.HeaderOf(if fragment.Some? then SKF else SK, HEADER_LEN + payloadLen), next, payloadLen, fragment);
    var sealed := p.Encrypt(keys.cipher, keys.encryption, iv, Aad(keys.cipher, front), Padded(plain, keys.cipher)).value;
    Grouped(front + iv, sealed, Tag(p, keys, front + iv + sealed));
    InTheMiddle(front, iv, sealed + Tag(p, keys, front + iv + sealed));
  }

  lemma ChainParts(payloads: seq<RawPayload>, chain: bytes)
    requires payloads != [] && EncodeChain(payloads) == Ok(chain)
    ensures |payloads[0].data| + 4 < 0x1_0000 && EncodeChain(payloads[1..]).Ok?
    ensures chain == EncodePayload(First(payloads[1..]), payloads[0].data) + EncodeChain(payloads[1..]).value
  {
  }

  lemma ParseOne(b: bytes, offset: nat, kind: byte, next: byte, data: bytes, rest: bytes)
    requires |data| + 4 < 0x1_0000 && offset <= |b| && b[offset..] == EncodePayload(next, data) + rest
    requires kind != NO_NEXT && !IsProtected(kind)
    ensures offset + 4 + |data| <= |b| && b[offset + 4 + |data|..] == rest
    ensures ParsePayloads(b, offset, kind) == Continue([RawPayload(kind, data)], ParsePayloads(b, offset + 4 + |data|, next))
  {
    var here := b[offset..];
    assert b[offset] == here[0] == next;
    assert b[offset + 2..offset + 4] == here[2..4] == Be16(|data| + 4);
    assert b[offset + 4..offset + 4 + |data|] == here[4..4 + |data|] == data;
  }

  lemma {:induction false} PlainPayloads(b: bytes, offset: nat, payloads: seq<RawPayload>)
    requires offset <= |b| && EncodeChain(payloads) == Ok(b[offset..])
    requires forall i :: 0 <= i < |payloads| ==> payloads[i].kind != NO_NEXT && !IsProtected(payloads[i].kind)
    ensures ParsePayloads(b, offset, First(payloads)) == Ok((payloads, None))
    decreases |payloads|
  {
    if payloads != [] {
      var one, tail := payloads[0], payloads[1..];
      var after := offset + 4 + |one.data|;
      ChainParts(payloads, b[offset..]);
      ParseOne(b, offset, one.kind, First(tail), one.data, EncodeChain(tail).value);
      PlainPayloads(b, after, tail);
      assert payloads == [one] + tail;
      assert Continue([one], Ok((tail, None))) == Ok((payloads, None));
    }
  }

  /** An unencrypted message comes back whole when no payload of it is of the
      types that end a chain. */
  lemma PlainRoundTrip(m: Message)
    requires EncodePlain(m).Ok?
    requires forall i :: 0 <= i < |m.payloads| ==> m.payloads[i].kind != NO_NEXT && !IsProtected(m.payloads[i].kind)
    ensures var d := EncodePlain(m).value;
            Parse(d) == Ok(Packet(m.HeaderOf(First(m.payloads), |d|), m.payloads, d, None))
  {
    var chain := EncodeChain(m.payloads).value;
    var h := m.HeaderOf(First(m.payloads), HEADER_LEN + |chain|);
    HeaderRoundTrip(h, chain);
    assert (h.Encode() + chain)[HEADER_LEN..] == chain;
    PlainPayloads(h.Encode() + chain, HEADER_LEN, m.payloads);
  }

  lemma {:induction false} JoinFront(piece: bytes, chunks: seq<bytes>)
    ensures Join([piece] + chunks) == piece + Join(chunks)
  {
    var all := [piece] + chunks;
    if chunks == [] {
      assert all[..0] == [];
    } else {
      JoinFront(piece, chunks[..|chunks| - 1]);
      assert all[..|all| - 1] == [piece] + chunks[..|chunks| - 1];
    }
  }

  lemma {:induction false} ChunksJoin(chain: bytes, n: nat)
    requires n > 0
    ensures Join(Chunks(chain, n)) == chain
    decreases |chain|
  {
    if |chain| > n {
      ChunksJoin(chain[n..], n);
      JoinFront(chain[..n], Chunks(chain[n..], n));
    } else if chain != [] {
      assert [chain][..0] == [];
    }
  }

  lemma {:induction false} ChunksFit(chain: bytes, n: nat)
    requires n > 0
    ensures forall i :: 0 <= i < |Chunks(chain, n)| ==> |Chunks(chain, n)[i]| <= n
    ensures |chain| > n ==> |Chunks(chain, n)| >= 2
    decreases |chain|
  {
    if |chain| > n {
      ChunksFit(chain[n..], n);
    }
  }

  /** The cut `encode_encrypted` makes of a message it splits. */
  function CutOf(m: Message, keys: Keys, maxLen: nat): Cut
    requires EncodeChain(m.payloads).Ok? && maxLen > Overhead(keys)
  {
    Cut(First(m.payloads), Chunks(EncodeChain(m.payloads).value, maxLen - Overhead(keys)))
  }

  ghost predicate AllRandomFit(c: Cipher, randoms: nat -> bytes) {
    forall n :: RandomFits(c, randoms(n))
  }

  ghost predicate OpensTo(p: Primitives, keys: Keys, d: bytes, out: Decrypted) {
    Parse(d).Ok? && Decrypt(p, Parse(d).value, keys) == Ok(out)
  }

  lemma PieceOpens(p: Primitives, m: Message, keys: Keys, cut: Cut, randoms: nat -> bytes, number: nat, d: bytes)
    requires p.Ideal() && keys.Valid() && AllRandomFit(keys.cipher, randoms)
    requires 1 <= number <= |cut.chunks| < 0x1_0000 && Fragment(p, m, keys, cut, randoms)(number) == Ok(d)
    ensures |d| <= Overhead(keys) + |cut.chunks[number - 1]|
    ensures |cut.chunks| <= MAX_FRAGMENTS ==> OpensTo(p, keys, d, cut.Piece(number))
  {
    assert RandomFits(keys.cipher, randoms(number));
    SealedOpens(p, m, keys, if number == 1 then cut.first else NO_NEXT, cut.chunks[number - 1],
                Some((number, |cut.chunks|)), randoms(number));
  }

  /** Datagram `k` opens to piece `k + 1` of the cut. */
  ghost predicate AllOpen(p: Primitives, keys: Keys, ds: seq<bytes>, cut: Cut) {
    cut.Valid() && |ds| == |cut.chunks| && forall k :: 0 <= k < |ds| ==> OpensTo(p, keys, ds[k], cut.Piece(k + 1))
  }

  lemma CollectedFits(p: Primitives, m: Message, keys: Keys, cut: Cut, maxLen: nat, randoms: nat -> bytes, ds: seq<bytes>, k: nat)
    requires p.Ideal() && keys.Valid() && AllRandomFit(keys.cipher, randoms)
    requires k < |cut.chunks| < 0x1_0000 && Collect(Fragment(p, m, keys, cut, randoms), |cut.chunks|) == Ok(ds)
    requires Overhead(keys) + |cut.chunks[k]| <= maxLen
    ensures |ds| == |cut.chunks| && |ds[k]| <= maxLen
    ensures |ds| <= MAX_FRAGMENTS ==> OpensTo(p, keys, ds[k], cut.Piece(k + 1))
  {
    CollectAt(Fragment(p, m, keys, cut, randoms), |cut.chunks|, k);
    PieceOpens(p, m, keys, cut, randoms, k + 1, ds[k]);
  }

  /** Two datagrams at least, none over `maxLen`; and if a receiver takes so
      many, each opens to its piece. */
  ghost predicate FitAndOpen(p: Primitives, keys: Keys, ds: seq<bytes>, cut: Cut, maxLen: nat) {
    && |ds| == |cut.chunks| >= 2
    && (forall k :: 0 <= k < |ds| ==> |ds[k]| <= maxLen)
    && (|ds| <= MAX_FRAGMENTS ==> AllOpen(p, keys, ds, cut))
  }

  lemma CollectedFit(p: Primitives, m: Message, keys: Keys, cut: Cut, maxLen: nat, randoms: nat -> bytes)
    requires p.Ideal() && keys.Valid() && AllRandomFit(keys.cipher, randoms)
    requires 2 <= |cut.chunks| < 0x1_0000 && Collect(Fragment(p, m, keys, cut, randoms), |cut.chunks|).Ok?
    requires forall k :: 0 <= k < |cut.chunks| ==> Overhead(keys) + |cut.chunks[k]| <= maxLen
    ensures FitAndOpen(p, keys, Collect(Fragment(p, m, keys, cut, randoms), |cut.chunks|).value, cut, maxLen)
  {
    var f := Fragment(p, m, keys, cut, randoms);
    var ds := Collect(f, |cut.chunks|).value;
    CollectAt(f, |cut.chunks|, 0);
    forall k | 0 <= k < |ds|
      ensures |ds[k]| <= maxLen
      ensures |ds| <= MAX_FRAGMENTS ==> OpensTo(p, keys, ds[k], cut.Piece(k + 1))
    {
      CollectedFits(p, m, keys, cut, maxLen, randoms, ds, k);
    }
  }

  lemma SplitEncodes(p: Primitives, m: Message, keys: Keys, maxLen: nat, randoms: nat -> bytes)
    requires EncodeChain(m.payloads).Ok? && Splits(keys, |EncodeChain(m.payloads).value|, Some(maxLen))
    ensures var cut := CutOf(m, keys, maxLen);
            EncodeEncrypted(p, m, keys, Some(maxLen), randoms)
            == if |cut.chunks| >= 0x1_0000 then Err(TooLong) else Collect(Fragment(p, m, keys, cut, randoms), |cut.chunks|)
  {
  }

  lemma CutFits(m: Message, keys: Keys, maxLen: nat)
    requires EncodeChain(m.payloads).Ok? && Splits(keys, |EncodeChain(m.payloads).value|, Some(maxLen))
    ensures var cut := CutOf(m, keys, maxLen);
            |cut.chunks| >= 2 && forall k :: 0 <= k < |cut.chunks| ==> Overhead(keys) + |cut.chunks[k]| <= maxLen
  {
    ChunksFit(EncodeChain(m.payloads).value, maxLen - Overhead(keys));
  }

  /** A split message: two datagrams at least, none over `maxLen`, and each
      opens to its piece of the cut. */
  lemma FragmentsFitAndOpen(p: Primitives, m: Message, keys: Keys, maxLen: nat, randoms: nat -> bytes)
    requires p.Ideal() && keys.Valid() && AllRandomFit(keys.cipher, randoms)
    requires EncodeEncrypted(p, m, keys, Some(maxLen), randoms).Ok?
    requires Splits(keys, |EncodeChain(m.payloads).value|, Some(maxLen))
    ensures FitAndOpen(p, keys, EncodeEncrypted(p, m, keys, Some(maxLen), randoms).value, CutOf(m, keys, maxLen), maxLen)
  {
    SplitEncodes(p, m, keys, maxLen, randoms);
    CutFits(m, keys, maxLen);
    CollectedFit(p, m, keys, CutOf(m, keys, maxLen), maxLen, randoms);
  }

  /** What a receiver makes of a datagram: opened, then added. */
  function Receive(p: Primitives, keys: Keys, s: Pieces, id: u32, d: bytes): (Pieces, Result<Option<Decrypted>>) {
    match Parse(d)
    case Err(e) => (s, Err(e))
    case Ok(packet) =>
      match Decrypt(p, packet, keys)
      case Err(e) => (s, Err(e))
      case Ok(out) => Add(s, id, out)
  }

  /** The datagrams `ds[order[0] - 1]`, `ds[order[1] - 1]`... received. */
  function ReceiveAll(p: Primitives, keys: Keys, id: u32, ds: seq<bytes>, order: seq<nat>): (r: (Pieces, seq<Result<Option<Decrypted>>>))
    requires forall i :: 0 <= i < |order| ==> 1 <= order[i] <= |ds|
  {
    if order == [] then (EMPTY, [])
    else
      var n := |order| - 1;
      var (s, answers) := ReceiveAll(p, keys, id, ds, order[..n]);
      var (s', answer) := Receive(p, keys, s, id, ds[order[n] - 1]);
      (s', answers + [answer])
  }

  lemma {:induction false} ReceiveIsFeed(p: Primitives, keys: Keys, id: u32, ds: seq<bytes>, cut: Cut, order: seq<nat>)
    requires Numbers(cut, order) && AllOpen(p, keys, ds, cut)
    ensures ReceiveAll(p, keys, id, ds, order) == Feed(id, cut, order)
  {
    if order != [] {
      var n := |order| - 1;
      ReceiveIsFeed(p, keys, id, ds, cut, order[..n]);
      assert OpensTo(p, keys, ds[order[n] - 1], cut.Piece(order[n]));
    }
  }

  ghost predicate Sendable(p: Primitives, m: Message, keys: Keys, maxLen: Option<nat>, randoms: nat -> bytes) {
    && p.Ideal() && keys.Valid() && AllRandomFit(keys.cipher, randoms)
    && EncodeEncrypted(p, m, keys, maxLen, randoms).Ok?
    && (forall i :: 0 <= i < |m.payloads| ==> m.payloads[i].kind != NO_NEXT)
  }

  ghost predicate Gives(answer: Result<Option<Decrypted>>, payloads: seq<RawPayload>) {
    && answer.Ok? && answer.value.Some?
    && answer.value.value.nextPayload == First(payloads)
    && ParseChain(answer.value.value.nextPayload, answer.value.value.inner) == Ok(payloads)
  }

  /** Nothing while a number of `total` is missing in `order`; `payloads` with
      the one that completes it. */
  ghost predicate GivesOnce(answers: seq<Result<Option<Decrypted>>>, order: seq<nat>, total: nat, payloads: seq<RawPayload>) {
    && |answers| == |order|
    && (!Full(Seen(order), total) ==> forall i :: 0 <= i < |answers| ==> answers[i] == Ok(None))
    && (order != [] && Full(Seen(order), total) && !Full(Seen(order[..|order| - 1]), total) ==>
          Gives(answers[|answers| - 1], payloads))
  }

  lemma FeedGivesOnce(id: u32, cut: Cut, order: seq<nat>, payloads: seq<RawPayload>)
    requires Numbers(cut, order) && cut.first == First(payloads) && ParseChain(cut.first, Join(cut.chunks)) == Ok(payloads)
    ensures GivesOnce(Feed(id, cut, order).1, order, |cut.chunks|, payloads)
  {
    if !Full(Seen(order), |cut.chunks|) {
      NothingUntilComplete(id, cut, order);
    } else if order != [] && !Full(Seen(order[..|order| - 1]), |cut.chunks|) {
      WholeOnceComplete(id, cut, order);
    }
  }

  lemma CutIsTransparent(p: Primitives, id: u32, keys: Keys, ds: seq<bytes>, cut: Cut, order: seq<nat>, payloads: seq<RawPayload>)
    requires Numbers(cut, order) && AllOpen(p, keys, ds, cut)
    requires cut.first == First(payloads) && ParseChain(cut.first, Join(cut.chunks)) == Ok(payloads)
    ensures GivesOnce(ReceiveAll(p, keys, id, ds, order).1, order, |ds|, payloads)
  {
    ReceiveIsFeed(p, keys, id, ds, cut, order);
    FeedGivesOnce(id, cut, order, payloads);
  }

  lemma CutParses(m: Message, keys: Keys, maxLen: nat)
    requires EncodeChain(m.payloads).Ok? && maxLen > Overhead(keys)
    requires forall i :: 0 <= i < |m.payloads| ==> m.payloads[i].kind != NO_NEXT
    ensures var cut := CutOf(m, keys, maxLen); ParseChain(cut.first, Join(cut.chunks)) == Ok(m.payloads)
  {
    ChunksJoin(EncodeChain(m.payloads).value, maxLen - Overhead(keys));
    ChainComesBack(m.payloads);
  }

  /** Fragmentation is transparent: whatever order the datagrams of a message
      come in, with whatever duplicates, a fresh reassembler gives nothing
      while one is missing, and with the last one the original payloads. */
  lemma FragmentationIsTransparent(p: Primitives, m: Message, keys: Keys, maxLen: nat, randoms: nat -> bytes, order: seq<nat>)
    requires Sendable(p, m, keys, Some(maxLen), randoms) && Splits(keys, |EncodeChain(m.payloads).value|, Some(maxLen))
    requires var ds := EncodeEncrypted(p, m, keys, Some(maxLen), randoms).value;
             && |ds| <= MAX_FRAGMENTS
             && (forall i :: 0 <= i < |order| ==> 1 <= order[i] <= |ds|)
    ensures var ds := EncodeEncrypted(p, m, keys, Some(maxLen), randoms).value;
            GivesOnce(ReceiveAll(p, keys, m.id, ds, order).1, order, |ds|, m.payloads)
  {
    FragmentsFitAndOpen(p, m, keys, maxLen, randoms);
    CutParses(m, keys, maxLen);
    CutIsTransparent(p, m.id, keys, EncodeEncrypted(p, m, keys, Some(maxLen), randoms).value, CutOf(m, keys, maxLen), order, m.payloads);
  }

  /** A message that is not split comes back whole from its one datagram. */
  lemma WholeRoundTrip(p: Primitives, m: Message, keys: Keys, maxLen: Option<nat>, randoms: nat -> bytes)
    requires Sendable(p, m, keys, maxLen, randoms) && !Splits(keys, |EncodeChain(m.payloads).value|, maxLen)
    ensures var ds := EncodeEncrypted(p, m, keys, maxLen, randoms).value;
            && |ds| == 1
            && OpensTo(p, keys, ds[0], Decrypted(First(m.payloads), EncodeChain(m.payloads).value, None))
            && ParseChain(First(m.payloads), EncodeChain(m.payloads).value) == Ok(m.payloads)
  {
    assert RandomFits(keys.cipher, randoms(0));
    SealedOpens(p, m, keys, First(m.payloads), EncodeChain(m.payloads).value, None, randoms(0));
    ChainComesBack(m.payloads);
  }
}
