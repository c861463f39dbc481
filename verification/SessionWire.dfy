/** The sealed datagrams of the session model and the bytes on the wire. */
module SessionWire {
  import opened Bytes
  import opened Crypto
  import opened Payloads
  import opened Messages
  import opened Reassembly
  import opened Session
  import opened SessionSafety
  import opened SessionIvs

  /** The explicit IV of an AEAD datagram. */
  function WireIv(w: bytes): bytes {
    var at := HEADER_LEN + (if |w| > 16 && w[16] == SKF then 8 else 4);
    if |w| < at + AEAD_IV_LEN then [] else w[at..at + AEAD_IV_LEN]
  }

  predicate CarriesHead(h: Header, head: Head, length: nat) {
    && h.exchange == head.exchange && h.isResponse == head.isResponse && h.fromInitiator == head.fromInitiator
    && h.messageId == head.id && h.initiatorSpi == head.spiI && h.responderSpi == head.spiR && h.length == length
  }

  /** These bytes are the datagram `d`: they parse to its head and decrypt to
      its content, and their IV is that of `d`. */
  ghost predicate IsWire(p: Primitives, w: bytes, d: Session.Datagram) {
    && d.key.Some? && Parse(w).Ok? && CarriesHead(Parse(w).value.header, d.head, |w|)
    && Decrypt(p, Parse(w).value, d.key.value) == Ok(d.content)
    && (d.key.value.cipher.IsAead() ==> WireIv(w) == IvOf(d))
  }

  lemma SealSucceeds(p: Primitives, m: Message, keys: Keys, next: byte, plain: bytes, fragment: Option<(u16, u16)>, random: bytes)
    requires p.Ideal() && keys.Valid() && RandomFits(keys.cipher, random)
    ensures Seal(p, m, keys, next, plain, fragment, random).Ok? <==> PayloadLen(keys, keys.cipher.IvLen(), plain, fragment.Some?) < 0x1_0000
  {
    UnpadPadded(plain, keys.cipher);
    assert keys.cipher.IsAead() || |Padded(plain, keys.cipher)| % AES_BLOCK_LEN == 0;
  }

  lemma KindOfSealed(w: bytes)
    requires Parse(w).Ok?
    ensures |w| >= HEADER_LEN && w[16] == Parse(w).value.header.nextPayload
  {
  }

  lemma SealIsWire(p: Primitives, m: Message, keys: Keys, next: byte, plain: bytes, fragment: Option<(u16, u16)>, random: bytes)
    requires p.Ideal() && keys.Valid() && RandomFits(keys.cipher, random) && Seal(p, m, keys, next, plain, fragment, random).Ok?
    ensures IsWire(p, Seal(p, m, keys, next, plain, fragment, random).value,
                   Session.Datagram.Datagram(HeadOf(m), Some(keys), Decrypted(next, plain, fragment)))
  {
    var w := Seal(p, m, keys, next, plain, fragment, random).value;
    SealedOpens(p, m, keys, next, plain, fragment, random);
    if keys.cipher.IsAead() {
      SealedCarriesIv(p, m, keys, next, plain, fragment, random);
      KindOfSealed(w);
    }
  }

  ghost predicate AllWires(p: Primitives, ws: seq<bytes>, ds: seq<Session.Datagram>) {
    |ws| == |ds| && forall k :: 0 <= k < |ds| ==> IsWire(p, ws[k], ds[k])
  }

  lemma FragmentFits(keys: Keys, chunk: bytes, maxLen: nat)
    requires Overhead(keys) + |chunk| <= maxLen < 0x1_0000
    ensures PayloadLen(keys, keys.cipher.IvLen(), chunk, true) < 0x1_0000
  {
  }

  lemma {:induction false} AllCollected(f: nat -> Result<bytes>, n: nat)
    requires forall k :: 1 <= k <= n ==> f(k).Ok?
    ensures Collect(f, n).Ok?
  {
    if n > 0 {
      AllCollected(f, n - 1);
    }
  }

  lemma FragmentsSealed(p: Primitives, m: Message, keys: Keys, maxLen: nat, randoms: nat -> bytes)
    requires p.Ideal() && keys.Valid() && AllRandomFit(keys.cipher, randoms) && maxLen < 0x1_0000
    requires EncodeChain(m.payloads).Ok? && Splits(keys, |EncodeChain(m.payloads).value|, Some(maxLen))
    requires |CutOf(m, keys, maxLen).chunks| < 0x1_0000
    ensures Collect(Fragment(p, m, keys, CutOf(m, keys, maxLen), randoms), |CutOf(m, keys, maxLen).chunks|).Ok?
  {
    var cut := CutOf(m, keys, maxLen);
    ChunksFit(EncodeChain(m.payloads).value, maxLen - Overhead(keys));
    forall k | 1 <= k <= |cut.chunks| ensures Fragment(p, m, keys, cut, randoms)(k).Ok? {
      assert RandomFits(keys.cipher, randoms(k));
      FragmentFits(keys, cut.chunks[k - 1], maxLen);
      SealSucceeds(p, m, keys, if k == 1 then cut.first else NO_NEXT, cut.chunks[k - 1], Some((k, |cut.chunks|)), randoms(k));
    }
    AllCollected(Fragment(p, m, keys, cut, randoms), |cut.chunks|);
  }

  lemma FragmentIsWire(p: Primitives, m: Message, keys: Keys, cut: Cut, randoms: nat -> bytes, k: nat, w: bytes)
    requires p.Ideal() && keys.Valid() && AllRandomFit(keys.cipher, randoms)
    requires k < |cut.chunks| < 0x1_0000 && Fragment(p, m, keys, cut, randoms)(k + 1) == Ok(w)
    ensures IsWire(p, w, PieceOf(m, keys, cut.first, cut.chunks, k))
  {
    assert RandomFits(keys.cipher, randoms(k + 1));
    SealIsWire(p, m, keys, if k == 0 then cut.first else NO_NEXT, cut.chunks[k], Some((k + 1, |cut.chunks|)), randoms(k + 1));
  }

  lemma FragmentsAreWires(p: Primitives, m: Message, keys: Keys, cut: Cut, randoms: nat -> bytes, ws: seq<bytes>, ds: seq<Session.Datagram>)
    requires p.Ideal() && keys.Valid() && AllRandomFit(keys.cipher, randoms) && 0 < |cut.chunks| == |ds| < 0x1_0000
    requires Collect(Fragment(p, m, keys, cut, randoms), |cut.chunks|) == Ok(ws)
    requires forall k :: 0 <= k < |ds| ==> ds[k] == PieceOf(m, keys, cut.first, cut.chunks, k)
    ensures AllWires(p, ws, ds)
  {
    CollectAt(Fragment(p, m, keys, cut, randoms), |cut.chunks|, 0);
    forall k | 0 <= k < |ds| ensures IsWire(p, ws[k], ds[k]) {
      CollectAt(Fragment(p, m, keys, cut, randoms), |cut.chunks|, k);
      FragmentIsWire(p, m, keys, cut, randoms, k, ws[k]);
    }
  }

  lemma SplitSeals(m: Message, keys: Keys, maxLen: nat)
    requires EncodeChain(m.payloads).Ok? && Splits(keys, |EncodeChain(m.payloads).value|, Some(maxLen))
    requires |CutOf(m, keys, maxLen).chunks| < 0x1_0000
    ensures Sealed(m, keys, Some(maxLen)).Ok?
    ensures var ds, cut := Sealed(m, keys, Some(maxLen)).value, CutOf(m, keys, maxLen);
            |ds| == |cut.chunks| && forall k :: 0 <= k < |ds| ==> ds[k] == PieceOf(m, keys, cut.first, cut.chunks, k)
  {
  }

  lemma SplitIsWire(p: Primitives, m: Message, keys: Keys, maxLen: nat, randoms: nat -> bytes)
    requires p.Ideal() && keys.Valid() && AllRandomFit(keys.cipher, randoms) && maxLen < 0x1_0000
    requires EncodeChain(m.payloads).Ok? && Splits(keys, |EncodeChain(m.payloads).value|, Some(maxLen))
    requires |CutOf(m, keys, maxLen).chunks| < 0x1_0000
    ensures EncodeEncrypted(p, m, keys, Some(maxLen), randoms).Ok? && Sealed(m, keys, Some(maxLen)).Ok?
    ensures AllWires(p, EncodeEncrypted(p, m, keys, Some(maxLen), randoms).value, Sealed(m, keys, Some(maxLen)).value)
  {
    var cut := CutOf(m, keys, maxLen);
    FragmentsSealed(p, m, keys, maxLen, randoms);
    ChunksFit(EncodeChain(m.payloads).value, maxLen - Overhead(keys));
    SplitEncodes(p, m, keys, maxLen, randoms);
    SplitSeals(m, keys, maxLen);
    FragmentsAreWires(p, m, keys, cut, randoms, EncodeEncrypted(p, m, keys, Some(maxLen), randoms).value, Sealed(m, keys, Some(maxLen)).value);
  }

  /** The model of sending fails just when the encoder does; otherwise each of
      its datagrams is the one on the wire, head, content and IV. */
  lemma SealedIsWire(p: Primitives, m: Message, keys: Keys, maxLen: Option<nat>, randoms: nat -> bytes)
    requires p.Ideal() && keys.Valid() && AllRandomFit(keys.cipher, randoms) && (maxLen.Some? ==> maxLen.value < 0x1_0000)
    ensures Sealed(m, keys, maxLen).Ok? <==> EncodeEncrypted(p, m, keys, maxLen, randoms).Ok?
    ensures Sealed(m, keys, maxLen).Ok? ==> AllWires(p, EncodeEncrypted(p, m, keys, maxLen, randoms).value, Sealed(m, keys, maxLen).value)
  {
    if EncodeChain(m.payloads).Ok? {
      var chain := EncodeChain(m.payloads).value;
      if Splits(keys, |chain|, maxLen) {
        if |CutOf(m, keys, maxLen.value).chunks| < 0x1_0000 {
          SplitIsWire(p, m, keys, maxLen.value, randoms);
        }
      } else {
        assert RandomFits(keys.cipher, randoms(0));
        SealSucceeds(p, m, keys, First(m.payloads), chain, None, randoms(0));
        if Sealed(m, keys, maxLen).Ok? {
          SealIsWire(p, m, keys, First(m.payloads), chain, None, randoms(0));
        }
      }
    }
  }

  /** Over every run, in bytes: two sent under one AEAD key with one explicit
      IV are the same datagram. */
  lemma WireIvsNeverRepeat(p: Primitives, start: Sender, events: seq<Event>, x: Sender,
                           w: bytes, d: Session.Datagram, w': bytes, d': Session.Datagram)
    requires Begins(start) && Leads(start, events, x) && d in x.sent && d' in x.sent
    requires IsWire(p, w, d) && IsWire(p, w', d') && d.key == d'.key && d.key.value.cipher.IsAead()
    requires WireIv(w) == WireIv(w')
    ensures d == d'
  {
    IvsNeverRepeat(start, events, x, d, d');
  }
}
