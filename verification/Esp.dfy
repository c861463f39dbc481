/** A CHILD SA: ESP encapsulation, decapsulation and the channel between two
    mirrored ends (RFC 4303, RFC 4106 section 3.1). */
module Esp {
  import opened Bits
  import opened Bytes
  import opened Crypto
  import opened Replay

  const NEXT_HEADER_IPV4: byte := 4
  const MAX_SEQUENCE: u32 := 0xffff_ffff

  datatype EspKeys = EspKeys(encryption: bytes, integrity: bytes)

  /** What does not change while the SA lives. */
  datatype Params = Params(spiIn: u32, spiOut: u32, algorithms: EspAlgorithms, outbound: EspKeys, inbound: EspKeys)

  datatype Sa = Sa(params: Params, seqOut: u32, window: Window, bytesOut: nat, bytesIn: nat)

  function KeymatLen(a: EspAlgorithms): nat {
    2 * (a.cipher.KeyLen() + a.integrity.KeyLen())
  }

  /** The keys cut from the keying material: the initiator's encryption and
      integrity keys, then the responder's (RFC 7296 section 2.17). */
  function NewSa(a: EspAlgorithms, spiIn: u32, spiOut: u32, keymat: bytes, initiated: bool): Result<Sa> {
    if |keymat| != KeymatLen(a) then Err(Crypto)
    else
      var e, i := a.cipher.KeyLen(), a.integrity.KeyLen();
      var first := EspKeys(keymat[..e], keymat[e..e + i]);
      var second := EspKeys(keymat[e + i..2 * e + i], keymat[2 * e + i..]);
      var (outbound, inbound) := if initiated then (first, second) else (second, first);
      Ok(Sa(Params(spiIn, spiOut, a, outbound, inbound), 0, EMPTY, 0, 0))
  }

  // ---- sending ----------------------------------------------------------

  /** The plaintext is a multiple of this: the block, and at least 4. */
  function Align(c: Cipher): (n: nat)
    ensures n == 4 || n == 16
    ensures n % c.BlockLen() == 0
  {
    if c.BlockLen() > 4 then c.BlockLen() else 4
  }

  lemma Aligned4(len: nat)
    ensures (len + (4 - (len + 2) % 4) % 4 + 2) % 4 == 0
  {
    var q, r := (len + 2) / 4, (len + 2) % 4;
    assert len + 2 == 4 * q + r;
    RemainderUnique(len + (4 - r) % 4 + 2, 4, if r == 0 then q else q + 1, 0);
  }

  lemma MultipleOf16(n: nat, k: nat)
    requires n == 16 * k
    ensures n % 16 == 0 && n % 4 == 0
  {
    RemainderUnique(n, 16, k, 0);
    RemainderUnique(n, 4, 4 * k, 0);
  }

  lemma Aligned16(len: nat)
    ensures (len + (16 - (len + 2) % 16) % 16 + 2) % 16 == 0
    ensures (len + (16 - (len + 2) % 16) % 16 + 2) % 4 == 0
  {
    var q, r := (len + 2) / 16, (len + 2) % 16;
    assert len + 2 == 16 * q + r;
    MultipleOf16(len + (16 - r) % 16 + 2, if r == 0 then q else q + 1);
  }

  function PadLen(c: Cipher, len: nat): (n: nat)
    ensures n < Align(c)
    ensures (len + n + 2) % 4 == 0 && (len + n + 2) % c.BlockLen() == 0
  {
    if Align(c) == 4 then
      Aligned4(len);
      (4 - (len + 2) % 4) % 4
    else
      Aligned16(len);
      (16 - (len + 2) % 16) % 16
  }

  function Padding(n: byte): (s: bytes)
    ensures |s| == n
  {
    seq(n, i requires 0 <= i < n => (i + 1) as byte)
  }

  function Plaintext(c: Cipher, packet: bytes): bytes {
    packet + Padding(PadLen(c, |packet|)) + [PadLen(c, |packet|), NEXT_HEADER_IPV4]
  }

  /** The IV: the sequence number for an AEAD, `random` for CBC. */
  function Iv(c: Cipher, number: u32, random: bytes): bytes {
    if c.IsAead() then Be64(number) else random
  }

  function Wire(p: Primitives, s: Params, number: u32, packet: bytes, random: bytes): Result<bytes> {
    var c := s.algorithms.cipher;
    var iv := Iv(c, number, random);
    var header := Be32(s.spiOut) + Be32(number);
    var aad := if c.IsAead() then header else [];
    var sealed :- p.Encrypt(c, s.outbound.encryption, iv, aad, Plaintext(c, packet));
    var body := header + iv + sealed;
    Ok(if c.IsAead() then body else body + p.Mac(s.algorithms.integrity, s.outbound.integrity, body))
  }

  function Encapsulated(p: Primitives, sa: Sa, packet: bytes, random: bytes): (Sa, Result<bytes>) {
    if sa.seqOut == MAX_SEQUENCE then (sa, Err(Crypto))
    else
      var number := sa.seqOut + 1;
      var sent := sa.(seqOut := number);
      match Wire(p, sa.params, number, packet, random)
      case Err(e) => (sent, Err(e))
      case Ok(esp) => (sent.(bytesOut := sent.bytesOut + |packet|), Ok(esp))
  }

  // ---- receiving ----------------------------------------------------------

  function TagLen(a: EspAlgorithms): nat {
    a.cipher.IcvLen() + a.integrity.IcvLen()
  }

  /** The authenticated plaintext of a packet of this SA. */
  function Open(p: Primitives, s: Params, esp: bytes): (r: Result<bytes>)
    ensures r.Ok? ==> |esp| >= 8
  {
    var c := s.algorithms.cipher;
    if |esp| < 8 + c.IvLen() + TagLen(s.algorithms) then Err(Malformed)
    else if FromBe32(esp[..4]) != s.spiIn then Err(Malformed)
    else
      var iv := esp[8..8 + c.IvLen()];
      if c.IsAead() then
        p.Decrypt(c, s.inbound.encryption, iv, esp[..8], esp[8 + c.IvLen()..])
      else
        var end := |esp| - TagLen(s.algorithms);
        if !p.Verify(s.algorithms.integrity, s.inbound.integrity, esp[..end], esp[end..]) then Err(Crypto)
        else p.Decrypt(c, s.inbound.encryption, iv, [], esp[8 + c.IvLen()..end])
  }

  /** The packet under the padding; None for a dummy or a foreign header. */
  function Strip(plaintext: bytes): Result<Option<bytes>> {
    if |plaintext| < 2 then Err(Malformed)
    else
      var padded := plaintext[..|plaintext| - 2];
      var padLen := plaintext[|plaintext| - 2];
      if |padded| < padLen then Err(Malformed)
      else if plaintext[|plaintext| - 1] == NEXT_HEADER_IPV4 then Ok(Some(padded[..|padded| - padLen]))
      else Ok(None)
  }

  /** The bytes counted as received: the packet, whatever its next header. */
  function Counted(plaintext: bytes): nat {
    if |plaintext| < 2 || |plaintext| - 2 < plaintext[|plaintext| - 2] then 0
    else |plaintext| - 2 - plaintext[|plaintext| - 2]
  }

  function Number(esp: bytes): u32
    requires |esp| >= 8
  {
    FromBe32(esp[4..8])
  }

  function Decapsulated(p: Primitives, sa: Sa, esp: bytes): (Sa, Result<Option<bytes>>) {
    match Open(p, sa.params, esp)
    case Err(e) => (sa, Err(e))
    case Ok(plaintext) =>
      var (window, isNew) := Accept(sa.window, Number(esp));
      if !isNew then (sa.(window := window), Err(Malformed))
      else (sa.(window := window, bytesIn := sa.bytesIn + Counted(plaintext)), Strip(plaintext))
  }

  /** The SA as the program keeps it. */
  class ChildSa {
    const params: Params
    var seqOut: u32
    const replay: ReplayWindow
    var bytesOut: nat
    var bytesIn: nat

    function View(): Sa
      reads this, replay
    {
      Sa(params, seqOut, replay.View(), bytesOut, bytesIn)
    }

    constructor (params: Params)
      ensures View() == Sa(params, 0, EMPTY, 0, 0) && fresh(replay)
    {
      this.params := params;
      seqOut, bytesOut, bytesIn := 0, 0, 0;
      replay := new ReplayWindow();
    }

    method Encapsulate(p: Primitives, packet: bytes, random: bytes) returns (r: Result<bytes>)
      modifies this
      ensures (View(), r) == Encapsulated(p, old(View()), packet, random)
    {
      if seqOut == MAX_SEQUENCE {
        return Err(Crypto);
      }
      seqOut := seqOut + 1;
      var cipher := params.algorithms.cipher;
      var align := if cipher.BlockLen() > 4 then cipher.BlockLen() else 4;
      var padLen := (align - (|packet| + 2) % align) % align;
      assert padLen == PadLen(cipher, |packet|);
      var plaintext := packet;
      plaintext := plaintext + Padding(padLen);
      plaintext := plaintext + [padLen];
      plaintext := plaintext + [NEXT_HEADER_IPV4];
      assert plaintext == Plaintext(cipher, packet);
      var iv := if cipher.IsAead() then Be64(seqOut) else random;
      var out := Be32(params.spiOut);
      out := out + Be32(seqOut);
      var header := out;
      out := out + iv;
      if cipher.IsAead() {
        var sealed := p.Encrypt(cipher, params.outbound.encryption, iv, header, plaintext);
        if sealed.Err? {
          return Err(sealed.error);
        }
        out := out + sealed.value;
      } else {
        var sealed := p.Encrypt(cipher, params.outbound.encryption, iv, [], plaintext);
        if sealed.Err? {
          return Err(sealed.error);
        }
        out := out + sealed.value;
        out := out + p.Mac(params.algorithms.integrity, params.outbound.integrity, out);
      }
      bytesOut := bytesOut + |packet|;
      return Ok(out);
    }

    method Decapsulate(p: Primitives, esp: bytes) returns (r: Result<Option<bytes>>)
      modifies this, replay
      ensures (View(), r) == Decapsulated(p, old(View()), esp)
    {
      var inner := Open(p, params, esp);
      if inner.Err? {
        return Err(inner.error);
      }
      var isNew := replay.AcceptNumber(Number(esp));
      if !isNew {
        return Err(Malformed);
      }
      bytesIn := bytesIn + Counted(inner.value);
      return Strip(inner.value);
    }
  }

  // ---- one packet -----------------------------------------------------------

  /** What one end seals the other opens: `a` sends to `b`. */
  ghost predicate Mirrored(a: Params, b: Params) {
    && a.spiOut == b.spiIn
    && a.algorithms == b.algorithms
    && a.outbound == b.inbound
    && a.algorithms.WellFormed()
    && |a.outbound.encryption| == a.algorithms.cipher.KeyLen()
  }

  /** The two ends made from one keying material, initiated by one of them,
      mirror each other in both directions. */
  lemma NewSasMirror(a: EspAlgorithms, spiI: u32, spiR: u32, keymat: bytes)
    requires a.WellFormed() && |keymat| == KeymatLen(a)
    ensures var i, r := NewSa(a, spiI, spiR, keymat, true), NewSa(a, spiR, spiI, keymat, false);
            && i.Ok? && r.Ok?
            && Mirrored(i.value.params, r.value.params)
            && Mirrored(r.value.params, i.value.params)
            && |i.value.params.outbound.integrity| == |i.value.params.inbound.integrity| == a.integrity.KeyLen()
            && keymat == i.value.params.outbound.encryption + i.value.params.outbound.integrity
                       + i.value.params.inbound.encryption + i.value.params.inbound.integrity
  {
  }

  /** The random IV of a CBC packet has the size of a block. */
  predicate RandomFits(a: EspAlgorithms, random: bytes) {
    a.cipher.IsAead() || |random| == a.cipher.IvLen()
  }

  /** Padding aligns the plaintext for every cipher, and comes off exactly. */
  lemma PaddingAligns(c: Cipher, packet: bytes)
    ensures |Plaintext(c, packet)| % 4 == 0 && |Plaintext(c, packet)| % c.BlockLen() == 0
    ensures Strip(Plaintext(c, packet)) == Ok(Some(packet)) && Counted(Plaintext(c, packet)) == |packet|
  {
    var t := Plaintext(c, packet);
    var n := PadLen(c, |packet|);
    assert |t| == |packet| + n + 2;
    assert |t| % 4 == 0;
    assert t[|t| - 2] == n && t[|t| - 1] == NEXT_HEADER_IPV4;
    assert t[..|t| - 2][..|packet|] == packet;
  }

  /** The explicit IV of an AEAD packet is its number. */
  ghost predicate HasIv(esp: bytes, number: nat) {
    number <= MAX_SEQUENCE && |esp| >= 16 && esp[8..16] == Be64(number)
  }

  /** A packet on the wire: its number, and the plaintext the mirrored end
      opens. */
  ghost predicate Carries(p: Primitives, rx: Params, esp: bytes, number: nat, packet: bytes) {
    && |esp| >= 8
    && Number(esp) == number
    && Open(p, rx, esp) == Ok(Plaintext(rx.algorithms.cipher, packet))
    && (rx.algorithms.cipher.IsAead() ==> HasIv(esp, number))
  }

  lemma WireCarries(p: Primitives, tx: Params, rx: Params, number: u32, packet: bytes, random: bytes)
    requires p.Ideal() && Mirrored(tx, rx) && RandomFits(tx.algorithms, random)
    ensures Wire(p, tx, number, packet, random).Ok?
    ensures Carries(p, rx, Wire(p, tx, number, packet, random).value, number, packet)
  {
    var c := tx.algorithms.cipher;
    var text := Plaintext(c, packet);
    PaddingAligns(c, packet);
    var iv := Iv(c, number, random);
    var header := Be32(tx.spiOut) + Be32(number);
    var sealed := p.seal(c, tx.outbound.encryption, iv, if c.IsAead() then header else [], text);
    var body := header + iv + sealed;
    var mac := p.Mac(tx.algorithms.integrity, tx.outbound.integrity, body);
    MacLength(p, tx.algorithms.integrity, tx.outbound.integrity, body);
    var esp := if c.IsAead() then body else body + mac;
    assert esp[..4] == Be32(tx.spiOut) && esp[4..8] == Be32(number) && esp[..8] == header;
    Be32RoundTrip(tx.spiOut);
    Be32RoundTrip(number);
    assert esp[8..8 + c.IvLen()] == iv;
    assert esp[8 + c.IvLen()..|body|] == sealed;
    assert esp[..|body|] == body && esp[|body|..] == if c.IsAead() then [] else mac;
  }

  // ---- what is authenticated ------------------------------------------------------

  /** The packet is of this SA, and its integrity check value is right. */
  ghost predicate Intact(p: Primitives, s: Params, esp: bytes) {
    var c := s.algorithms.cipher;
    var body := 8 + c.IvLen();
    && |esp| >= body && esp[..4] == Be32(s.spiIn)
    && if c.IsAead() then
         |esp| >= body + c.IcvLen() && p.open(c, s.inbound.encryption, esp[8..body], esp[..8], esp[body..]).Some?
       else
         var end := |esp| - s.algorithms.integrity.IcvLen();
         body <= end && IsMac(p, s.algorithms.integrity, s.inbound.integrity, esp[..end], esp[end..])
  }

  /** The plaintext a packet of this SA authenticates: under an AEAD with its
      first 8 bytes, under CBC with an HMAC of all before the last bytes. */
  ghost predicate Authenticates(p: Primitives, s: Params, esp: bytes, text: bytes) {
    var c := s.algorithms.cipher;
    var body := 8 + c.IvLen();
    && Intact(p, s, esp)
    && |s.inbound.encryption| == c.KeyLen()
    && if c.IsAead() then p.open(c, s.inbound.encryption, esp[8..body], esp[..8], esp[body..]) == Some(text)
       else
         var end := |esp| - s.algorithms.integrity.IcvLen();
         (end - body) % AES_BLOCK_LEN == 0 && p.open(c, s.inbound.encryption, esp[8..body], [], esp[body..end]) == Some(text)
  }

  lemma SpiIs(b: bytes, spi: u32)
    requires |b| == 4
    ensures FromBe32(b) == spi <==> b == Be32(spi)
  {
    Be32RoundTrip(spi);
    FromBe32RoundTrip(b);
  }

  /** What opens is what is authenticated, and nothing else does. */
  lemma OpensIfAuthentic(p: Primitives, s: Params, esp: bytes, text: bytes)
    requires p.Ideal() && s.algorithms.WellFormed()
    ensures Open(p, s, esp) == Ok(text) <==> Authenticates(p, s, esp, text)
  {
    if |esp| >= 8 + s.algorithms.cipher.IvLen() + TagLen(s.algorithms) {
      SpiIs(esp[..4], s.spiIn);
      if !s.algorithms.cipher.IsAead() {
        var end := |esp| - s.algorithms.integrity.IcvLen();
        MacIsHmac(p, s.algorithms.integrity, s.inbound.integrity, esp[..end], esp[end..]);
      }
    }
  }

  /** A packet that changes anything, or yields anything, is of this SA and
      intact. */
  lemma AcceptedIsIntact(p: Primitives, sa: Sa, esp: bytes)
    requires p.Ideal() && sa.params.algorithms.WellFormed()
    requires Decapsulated(p, sa, esp).0 != sa || Decapsulated(p, sa, esp).1.Ok?
    ensures Intact(p, sa.params, esp)
  {
    var r := Open(p, sa.params, esp);
    if r.Ok? {
      OpensIfAuthentic(p, sa.params, esp, r.value);
    }
  }

  /** `packet` stands in an IPv4 plaintext, before the padding. */
  predicate Holds(text: bytes, packet: bytes) {
    |text| >= 2 && text[|text| - 1] == 4 && |packet| + text[|text| - 2] + 2 == |text| && text[..|packet|] == packet
  }

  lemma StripsHeld(text: bytes, packet: bytes)
    ensures Strip(text) == Ok(Some(packet)) <==> Holds(text, packet)
  {
    if |text| >= 2 {
      var padded, padLen := text[..|text| - 2], text[|text| - 2];
      assert |padded| >= padLen ==> padded[..|padded| - padLen] == text[..|padded| - padLen];
    }
  }

  /** A packet is delivered if and only if its number is new and it stands in
      the plaintext that the bytes received authenticate. */
  lemma DeliversAuthentic(p: Primitives, sa: Sa, esp: bytes, packet: bytes)
    requires p.Ideal() && sa.params.algorithms.WellFormed()
    ensures Decapsulated(p, sa, esp).1 == Ok(Some(packet)) <==>
              |esp| >= 8 && Accept(sa.window, FromBe32(esp[4..8])).1
              && exists text :: Authenticates(p, sa.params, esp, text) && Holds(text, packet)
  {
    var r := Open(p, sa.params, esp);
    if r.Ok? {
      OpensIfAuthentic(p, sa.params, esp, r.value);
      StripsHeld(r.value, packet);
      assert Authenticates(p, sa.params, esp, r.value);
    }
    forall text | Authenticates(p, sa.params, esp, text) ensures r == Ok(text) {
      OpensIfAuthentic(p, sa.params, esp, text);
    }
  }

  /** The packet, the bytes 1, 2, 3... as padding, their number and the next
      header; aligned for the cipher. */
  predicate IsPadded(text: bytes, packet: bytes, c: Cipher) {
    && |packet| + 2 <= |text| < |packet| + 2 + Align(c) && |text| % 4 == 0 && |text| % c.BlockLen() == 0
    && text[..|packet|] == packet
    && (forall i :: |packet| <= i < |text| - 2 ==> text[i] == i - |packet| + 1)
    && text[|text| - 2] == |text| - 2 - |packet| && text[|text| - 1] == 4
  }

  /** A packet on the wire: the SPI and the number, the IV, and what the cipher
      makes of the padded packet, with SPI and number as additional data under
      an AEAD; under CBC the HMAC of all comes last. */
  ghost predicate IsSealed(p: Primitives, s: Params, esp: bytes, number: u32, text: bytes, random: bytes) {
    var c := s.algorithms.cipher;
    var body := 8 + c.IvLen();
    && body <= |esp| && esp[..4] == Be32(s.spiOut) && esp[4..8] == Be32(number)
    && esp[8..body] == (if c.IsAead() then Be64(number) else random)
    && if c.IsAead() then esp[body..] == p.seal(c, s.outbound.encryption, esp[8..body], esp[..8], text)
       else
         var end := |esp| - s.algorithms.integrity.IcvLen();
         && body <= end && esp[body..end] == p.seal(c, s.outbound.encryption, esp[8..body], [], text)
         && IsMac(p, s.algorithms.integrity, s.outbound.integrity, esp[..end], esp[end..])
  }

  lemma PlaintextIsPadded(c: Cipher, packet: bytes)
    ensures IsPadded(Plaintext(c, packet), packet, c)
  {
    PaddingAligns(c, packet);
  }

  lemma TailIs(body: bytes, mac: bytes, n: nat)
    requires 8 <= n <= |body|
    ensures var d := body + mac;
            && d[..|body|] == body && d[|body|..] == mac && d[n..|body|] == body[n..]
            && d[..4] == body[..4] && d[4..8] == body[4..8] && d[8..n] == body[8..n]
  {
  }

  lemma WireIsSealed(p: Primitives, s: Params, number: u32, packet: bytes, random: bytes)
    requires p.Ideal() && s.algorithms.WellFormed() && RandomFits(s.algorithms, random) && Wire(p, s, number, packet, random).Ok?
    ensures IsSealed(p, s, Wire(p, s, number, packet, random).value, number, Plaintext(s.algorithms.cipher, packet), random)
  {
    var c, text := s.algorithms.cipher, Plaintext(s.algorithms.cipher, packet);
    var header, iv := Be32(s.spiOut) + Be32(number), Iv(c, number, random);
    var sealed := p.seal(c, s.outbound.encryption, iv, if c.IsAead() then header else [], text);
    var body := header + iv + sealed;
    var esp := Wire(p, s, number, packet, random).value;
    assert body[..4] == Be32(s.spiOut) && body[4..8] == Be32(number) && body[..8] == header;
    assert body[8..8 + c.IvLen()] == iv && body[8 + c.IvLen()..] == sealed;
    if c.IsAead() {
      assert esp == body;
    } else {
      var mac := p.Mac(s.algorithms.integrity, s.outbound.integrity, body);
      MacLength(p, s.algorithms.integrity, s.outbound.integrity, body);
      MacIsHmac(p, s.algorithms.integrity, s.outbound.integrity, body, mac);
      TailIs(body, mac, 8 + c.IvLen());
    }
  }

  /** What a step of sending puts on the wire, under the next number. */
  lemma EncapsulatedIsSealed(p: Primitives, sa: Sa, packet: bytes, random: bytes) returns (text: bytes)
    requires p.Ideal() && sa.params.algorithms.WellFormed() && RandomFits(sa.params.algorithms, random)
    requires Encapsulated(p, sa, packet, random).1.Ok?
    ensures sa.seqOut < MAX_SEQUENCE && IsPadded(text, packet, sa.params.algorithms.cipher)
    ensures IsSealed(p, sa.params, Encapsulated(p, sa, packet, random).1.value, sa.seqOut + 1, text, random)
    ensures Encapsulated(p, sa, packet, random).0 == sa.(seqOut := sa.seqOut + 1, bytesOut := sa.bytesOut + |packet|)
  {
    var s, c, number := sa.params, sa.params.algorithms.cipher, sa.seqOut + 1;
    text := Plaintext(c, packet);
    PlaintextIsPadded(c, packet);
    WireIsSealed(p, s, number, packet, random);
  }

  // ---- a run ------------------------------------------------------------------

  datatype Sent = Sent(packet: bytes, esp: bytes)

  datatype Delivery = Delivery(number: nat, packet: bytes)

  /** One direction: a sender, a receiver, every packet ever sent (the network
      drops, repeats and reorders them), and the deliveries in order. */
  datatype Channel = Channel(tx: Sa, rx: Sa, sent: seq<Sent>, delivered: seq<Delivery>)

  datatype Event = Send(packet: bytes, random: bytes) | Arrive(esp: bytes)

  function Step(p: Primitives, ch: Channel, e: Event): Channel {
    match e
    case Send(packet, random) =>
      var (tx, r) := Encapsulated(p, ch.tx, packet, random);
      ch.(tx := tx, sent := if r.Ok? then ch.sent + [Sent(packet, r.value)] else ch.sent)
    case Arrive(esp) =>
      var (rx, r) := Decapsulated(p, ch.rx, esp);
      ch.(rx := rx, delivered :=
        if r.Ok? && r.value.Some? && |esp| >= 8 then ch.delivered + [Delivery(Number(esp), r.value.value)] else ch.delivered)
  }

  /** What can happen: IVs of the right size, and on the network what was
      sent or what is not intact. */
  ghost predicate Possible(p: Primitives, ch: Channel, e: Event) {
    match e
    case Send(_, random) => RandomFits(ch.tx.params.algorithms, random)
    case Arrive(esp) => (exists i :: 0 <= i < |ch.sent| && ch.sent[i].esp == esp) || !Intact(p, ch.rx.params, esp)
  }

  ghost predicate Reaches(p: Primitives, from: Channel, events: seq<Event>, to: Channel)
    decreases |events|
  {
    if events == [] then from == to
    else
      var n := |events| - 1;
      exists mid: Channel :: Reaches(p, from, events[..n], mid) && Possible(p, mid, events[n]) && to == Step(p, mid, events[n])
  }

  ghost predicate Start(ch: Channel) {
    && Mirrored(ch.tx.params, ch.rx.params)
    && ch.tx.seqOut == 0 && ch.rx.window == EMPTY && ch.sent == [] && ch.delivered == []
  }

  ghost function Numbers(ds: seq<Delivery>): set<nat> {
    set i | 0 <= i < |ds| :: ds[i].number
  }

  /** Packet `i + 1` is the `i`-th sent. */
  ghost predicate AllCarry(p: Primitives, rx: Params, sent: seq<Sent>) {
    forall i :: 0 <= i < |sent| ==> Carries(p, rx, sent[i].esp, i + 1, sent[i].packet)
  }

  ghost predicate IsSent(ch: Channel, d: Delivery) {
    1 <= d.number <= |ch.sent| && ch.sent[d.number - 1].packet == d.packet
  }

  ghost predicate DeliveriesSound(ch: Channel) {
    && Refines(ch.rx.window, Numbers(ch.delivered))
    && (forall i :: 0 <= i < |ch.delivered| ==> IsSent(ch, ch.delivered[i]))
    && (forall i, j :: 0 <= i < j < |ch.delivered| ==> ch.delivered[i].number != ch.delivered[j].number)
  }

  ghost predicate Inv(p: Primitives, ch: Channel) {
    && Mirrored(ch.tx.params, ch.rx.params)
    && ch.tx.seqOut == |ch.sent|
    && AllCarry(p, ch.rx.params, ch.sent)
    && DeliveriesSound(ch)
  }

  lemma SendStep(p: Primitives, ch: Channel, packet: bytes, random: bytes, esp: bytes)
    requires ch.tx.seqOut < MAX_SEQUENCE && Wire(p, ch.tx.params, ch.tx.seqOut + 1, packet, random) == Ok(esp)
    ensures Step(p, ch, Send(packet, random)) ==
      ch.(tx := ch.tx.(seqOut := ch.tx.seqOut + 1, bytesOut := ch.tx.bytesOut + |packet|),
          sent := ch.sent + [Sent(packet, esp)])
  {
  }

  lemma AppendCarries(p: Primitives, rx: Params, sent: seq<Sent>, one: Sent)
    requires AllCarry(p, rx, sent) && Carries(p, rx, one.esp, |sent| + 1, one.packet)
    ensures AllCarry(p, rx, sent + [one])
  {
  }

  lemma SendKeepsInv(p: Primitives, ch: Channel, packet: bytes, random: bytes)
    requires p.Ideal() && Inv(p, ch) && RandomFits(ch.tx.params.algorithms, random)
    ensures Inv(p, Step(p, ch, Send(packet, random)))
  {
    if ch.tx.seqOut < MAX_SEQUENCE {
      var number := ch.tx.seqOut + 1;
      WireCarries(p, ch.tx.params, ch.rx.params, number, packet, random);
      var esp := Wire(p, ch.tx.params, number, packet, random).value;
      SendStep(p, ch, packet, random, esp);
      AppendCarries(p, ch.rx.params, ch.sent, Sent(packet, esp));
    }
  }

  lemma NumbersAppend(ds: seq<Delivery>, d: Delivery)
    ensures Numbers(ds + [d]) == Numbers(ds) + {d.number}
    ensures forall k :: 0 <= k < |ds| ==> ds[k].number in Numbers(ds)
  {
    var more := ds + [d];
    assert more[|ds|].number == d.number;
    forall n | n in Numbers(ds) ensures n in Numbers(more) {
      var k :| 0 <= k < |ds| && ds[k].number == n;
      assert more[k].number == n;
    }
  }

  lemma DeliveryStaysSound(ch: Channel, i: nat, rx: Sa)
    requires DeliveriesSound(ch) && i < |ch.sent| && i + 1 !in Numbers(ch.delivered)
    requires Refines(rx.window, Numbers(ch.delivered) + {i + 1})
    ensures DeliveriesSound(ch.(rx := rx, delivered := ch.delivered + [Delivery(i + 1, ch.sent[i].packet)]))
  {
    NumbersAppend(ch.delivered, Delivery(i + 1, ch.sent[i].packet));
  }

  lemma ArrivalStep(p: Primitives, ch: Channel, esp: bytes, number: u32, packet: bytes)
    requires Carries(p, ch.rx.params, esp, number, packet)
    ensures var (window, isNew) := Accept(ch.rx.window, number);
            Step(p, ch, Arrive(esp)) ==
            if isNew then ch.(rx := ch.rx.(window := window, bytesIn := ch.rx.bytesIn + |packet|),
                              delivered := ch.delivered + [Delivery(number, packet)])
            else ch.(rx := ch.rx.(window := window))
  {
    PaddingAligns(ch.rx.params.algorithms.cipher, packet);
  }

  /** An arrival of packet `i + 1`: delivered just when the window takes it. */
  lemma ArrivalOfSent(p: Primitives, ch: Channel, i: nat)
    requires Inv(p, ch) && i < |ch.sent|
    ensures var ch' := Step(p, ch, Arrive(ch.sent[i].esp));
            && Inv(p, ch')
            && ch'.delivered ==
               if Takes(Numbers(ch.delivered), ch.rx.window.highest, i + 1)
               then ch.delivered + [Delivery(i + 1, ch.sent[i].packet)] else ch.delivered
  {
    var packet := ch.sent[i].packet;
    ArrivalStep(p, ch, ch.sent[i].esp, i + 1, packet);
    AcceptRefines(ch.rx.window, Numbers(ch.delivered), i + 1);
    if Takes(Numbers(ch.delivered), ch.rx.window.highest, i + 1) {
      DeliveryStaysSound(ch, i, Step(p, ch, Arrive(ch.sent[i].esp)).rx);
    }
  }

  /** A packet of another SA, or one whose integrity check value is wrong,
      leaves the receiver as it was: nothing is delivered, and the window does
      not move. */
  lemma ForgeryIsInert(p: Primitives, ch: Channel, esp: bytes)
    requires p.Ideal() && ch.rx.params.algorithms.WellFormed() && !Intact(p, ch.rx.params, esp)
    ensures Step(p, ch, Arrive(esp)) == ch
  {
    var r := Open(p, ch.rx.params, esp);
    if r.Ok? {
      OpensIfAuthentic(p, ch.rx.params, esp, r.value);
    }
  }

  lemma {:induction false} RunKeepsInv(p: Primitives, start: Channel, events: seq<Event>, ch: Channel)
    requires p.Ideal() && Start(start) && Reaches(p, start, events, ch)
    ensures Inv(p, ch)
    decreases |events|
  {
    if events == [] {
      EmptyRefines();
      assert Numbers([]) == {};
    } else {
      var n := |events| - 1;
      var mid: Channel :| Reaches(p, start, events[..n], mid) && Possible(p, mid, events[n]) && ch == Step(p, mid, events[n]);
      RunKeepsInv(p, start, events[..n], mid);
      match events[n]
      case Send(packet, random) => SendKeepsInv(p, mid, packet, random);
      case Arrive(esp) =>
        if Intact(p, mid.rx.params, esp) {
          var i :| 0 <= i < |mid.sent| && mid.sent[i].esp == esp;
          ArrivalOfSent(p, mid, i);
        } else {
          ForgeryIsInert(p, mid, esp);
        }
    }
  }

  /** Over every run: each delivery is a packet the other end encapsulated,
      byte for byte, and no packet is delivered twice. */
  lemma DeliveredOnceAsSent(p: Primitives, start: Channel, events: seq<Event>, ch: Channel)
    requires p.Ideal() && Start(start) && Reaches(p, start, events, ch)
    ensures forall i :: 0 <= i < |ch.delivered| ==> IsSent(ch, ch.delivered[i])
    ensures forall i, j :: 0 <= i < j < |ch.delivered| ==> ch.delivered[i].number != ch.delivered[j].number
  {
    RunKeepsInv(p, start, events, ch);
  }

  /** Over every run: packet `i + 1` arriving before the window has moved 64
      past it is delivered by then. */
  lemma InTimeIsDelivered(p: Primitives, start: Channel, events: seq<Event>, ch: Channel, i: nat)
    requires p.Ideal() && Start(start) && Reaches(p, start, events, ch)
    requires i < |ch.sent| && i + 1 + REPLAY_WINDOW > ch.rx.window.highest
    ensures i + 1 in Numbers(Step(p, ch, Arrive(ch.sent[i].esp)).delivered)
  {
    RunKeepsInv(p, start, events, ch);
    ArrivalOfSent(p, ch, i);
    var ds := Step(p, ch, Arrive(ch.sent[i].esp)).delivered;
    assert i + 1 !in Numbers(ch.delivered) ==> ds[|ds| - 1].number == i + 1;
  }

  /** Over every run no two packets of an AEAD SA carry the same IV. */
  lemma IvsNeverRepeat(p: Primitives, start: Channel, events: seq<Event>, ch: Channel, i: nat, j: nat)
    requires p.Ideal() && Start(start) && Reaches(p, start, events, ch)
    requires ch.rx.params.algorithms.cipher.IsAead() && i < j < |ch.sent|
    ensures |ch.sent[i].esp| >= 16 && |ch.sent[j].esp| >= 16
    ensures ch.sent[i].esp[8..16] != ch.sent[j].esp[8..16]
  {
    RunKeepsInv(p, start, events, ch);
    assert HasIv(ch.sent[i].esp, i + 1) && HasIv(ch.sent[j].esp, j + 1);
    Be64RoundTrip(i + 1);
    Be64RoundTrip(j + 1);
  }
}
