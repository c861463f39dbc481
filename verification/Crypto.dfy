/** The algorithms with their numbers and sizes. The primitives themselves are
    parameters: functions of which only the ideal properties are known. */
module Crypto {
  import opened Bytes

  const AEAD_SALT_LEN := 4
  const AEAD_IV_LEN := 8
  const AEAD_ICV_LEN := 16
  const AES_BLOCK_LEN := 16

  datatype Cipher = AesCbc(bits: u16) | AesGcm16(bits: u16) | ChaCha20Poly1305 {
    function Id(): u16 {
      match this
      case AesCbc(_) => 12
      case AesGcm16(_) => 20
      case ChaCha20Poly1305 => 28
    }

    function KeyBits(): Option<u16> {
      if ChaCha20Poly1305? then None else Some(bits)
    }

    predicate IsAead() { !AesCbc? }

    function KeyLen(): nat {
      match this
      case AesCbc(bits) => bits / 8
      case AesGcm16(bits) => bits / 8 + AEAD_SALT_LEN
      case ChaCha20Poly1305 => 32 + AEAD_SALT_LEN
    }

    function IvLen(): nat { if IsAead() then AEAD_IV_LEN else AES_BLOCK_LEN }
    function BlockLen(): nat { if IsAead() then 1 else AES_BLOCK_LEN }
    function IcvLen(): nat { if IsAead() then AEAD_ICV_LEN else 0 }
  }

  datatype Hash = Md5 | Sha1 | Sha256 | Sha384 | Sha512 {
    function OutputLen(): (n: nat)
      ensures 16 <= n <= 64
    {
      match this
      case Md5 => 16
      case Sha1 => 20
      case Sha256 => 32
      case Sha384 => 48
      case Sha512 => 64
    }
  }

  datatype Integrity = NoIntegrity | HmacMd5_96 | HmacSha1_96 | HmacSha256_128 | HmacSha384_192 | HmacSha512_256 {
    function HashOf(): Hash
      requires !NoIntegrity?
    {
      match this
      case HmacMd5_96 => Md5
      case HmacSha1_96 => Sha1
      case HmacSha256_128 => Sha256
      case HmacSha384_192 => Sha384
      case HmacSha512_256 => Sha512
    }

    function Id(): u16 {
      match this
      case NoIntegrity => 0
      case HmacMd5_96 => 1
      case HmacSha1_96 => 2
      case HmacSha256_128 => 12
      case HmacSha384_192 => 13
      case HmacSha512_256 => 14
    }

    function KeyLen(): nat { if NoIntegrity? then 0 else HashOf().OutputLen() }

    function IcvLen(): nat {
      match this
      case NoIntegrity => 0
      case HmacMd5_96 | HmacSha1_96 => 12
      case HmacSha256_128 => 16
      case HmacSha384_192 => 24
      case HmacSha512_256 => 32
    }
  }

  datatype Prf = PrfMd5 | PrfSha1 | PrfSha256 | PrfSha384 | PrfSha512 {
    function HashOf(): Hash {
      match this
      case PrfMd5 => Md5
      case PrfSha1 => Sha1
      case PrfSha256 => Sha256
      case PrfSha384 => Sha384
      case PrfSha512 => Sha512
    }

    function Id(): u16 {
      match this
      case PrfMd5 => 1
      case PrfSha1 => 2
      case PrfSha256 => 5
      case PrfSha384 => 6
      case PrfSha512 => 7
    }

    function KeyLen(): (n: nat)
      ensures 16 <= n <= 64
    {
      HashOf().OutputLen()
    }
  }

  datatype Group = Modp1024 | Modp1536 | Modp2048 | Modp3072 | Modp4096 | Ecp256 | Ecp384 | Ecp521 | Curve25519 {
    function Id(): u16 {
      match this
      case Modp1024 => 2
      case Modp1536 => 5
      case Modp2048 => 14
      case Modp3072 => 15
      case Modp4096 => 16
      case Ecp256 => 19
      case Ecp384 => 20
      case Ecp521 => 21
      case Curve25519 => 31
    }
  }

  /** The algorithms of an IKE SA. */
  datatype IkeAlgorithms = IkeAlgorithms(cipher: Cipher, prf: Prf, integrity: Integrity, group: Group) {
    predicate WellFormed() { cipher.IsAead() <==> integrity.NoIntegrity? }
  }

  /** The algorithms of a CHILD SA, with the group of its rekeys if any. */
  datatype EspAlgorithms = EspAlgorithms(cipher: Cipher, integrity: Integrity, group: Option<Group>) {
    predicate WellFormed() { cipher.IsAead() <==> integrity.NoIntegrity? }
  }

  /** The primitives: an AEAD or CBC cipher over (cipher, key, IV, additional
      data, text), and HMAC over (hash, key, data). */
  datatype Primitives = Primitives(
    seal: (Cipher, bytes, bytes, bytes, bytes) -> bytes,
    open: (Cipher, bytes, bytes, bytes, bytes) -> Option<bytes>,
    hmac: (Hash, bytes, bytes) -> bytes)
  {
    /** Decryption inverts encryption, which adds the tag; an HMAC has the
        size of its hash. */
    ghost predicate Ideal() {
      && (forall c: Cipher, k, iv, aad, p :: c.IsAead() || |p| % AES_BLOCK_LEN == 0 ==>
            |seal(c, k, iv, aad, p)| == |p| + c.IcvLen() && open(c, k, iv, aad, seal(c, k, iv, aad, p)) == Some(p))
      && (forall h: Hash, k, d :: |hmac(h, k, d)| == h.OutputLen())
    }

    predicate Check(cipher: Cipher, key: bytes, iv: bytes) {
      |key| == cipher.KeyLen() && |iv| == cipher.IvLen()
    }

    function Encrypt(cipher: Cipher, key: bytes, iv: bytes, aad: bytes, plaintext: bytes): Result<bytes> {
      if !Check(cipher, key, iv) then Err(Crypto)
      else if !cipher.IsAead() && |plaintext| % AES_BLOCK_LEN != 0 then Err(Crypto)
      else Ok(seal(cipher, key, iv, aad, plaintext))
    }

    function Decrypt(cipher: Cipher, key: bytes, iv: bytes, aad: bytes, ciphertext: bytes): Result<bytes> {
      if !Check(cipher, key, iv) then Err(Crypto)
      else if !cipher.IsAead() && |ciphertext| % AES_BLOCK_LEN != 0 then Err(Crypto)
      else match open(cipher, key, iv, aad, ciphertext) case Some(p) => Ok(p) case None => Err(Crypto)
    }

    function Mac(integrity: Integrity, key: bytes, data: bytes): bytes {
      if integrity.NoIntegrity? then []
      else
        var mac := hmac(integrity.HashOf(), key, data);
        if |mac| > integrity.IcvLen() then mac[..integrity.IcvLen()] else mac
    }

    predicate Verify(integrity: Integrity, key: bytes, data: bytes, icv: bytes) {
      Mac(integrity, key, data) == icv
    }

    function Prf(prf: Prf, key: bytes, data: bytes): bytes {
      hmac(prf.HashOf(), key, data)
    }
  }

  /** The ideal properties contradict nothing: a cipher that only appends a
      tag has them. */
  lemma IdealIsConsistent()
    ensures exists p: Primitives :: p.Ideal()
  {
    var seal := (c: Cipher, k: bytes, iv: bytes, aad: bytes, p: bytes) => p + Repeat(0, c.IcvLen());
    var open := (c: Cipher, k: bytes, iv: bytes, aad: bytes, t: bytes) =>
      if |t| >= c.IcvLen() then Some(t[..|t| - c.IcvLen()]) else None;
    var hmac := (h: Hash, k: bytes, d: bytes) => Repeat(0, h.OutputLen());
    var p := Primitives(seal, open, hmac);
    forall c: Cipher, k: bytes, iv: bytes, aad: bytes, t: bytes
      ensures |p.seal(c, k, iv, aad, t)| == |t| + c.IcvLen() && p.open(c, k, iv, aad, p.seal(c, k, iv, aad, t)) == Some(t)
    {
      assert (t + Repeat(0, c.IcvLen()))[..|t|] == t;
    }
    assert p.Ideal();
  }

  lemma MacLength(p: Primitives, integrity: Integrity, key: bytes, data: bytes)
    requires p.Ideal()
    ensures |p.Mac(integrity, key, data)| == integrity.IcvLen()
  {
    if !integrity.NoIntegrity? {
      assert |p.hmac(integrity.HashOf(), key, data)| == integrity.HashOf().OutputLen();
    }
  }

  /** `tag` is the HMAC of `data`, cut to the size of the integrity algorithm. */
  ghost predicate IsMac(p: Primitives, integrity: Integrity, key: bytes, data: bytes, tag: bytes) {
    !integrity.NoIntegrity? && |tag| == integrity.IcvLen() && tag <= p.hmac(integrity.HashOf(), key, data)
  }

  lemma MacIsHmac(p: Primitives, integrity: Integrity, key: bytes, data: bytes, tag: bytes)
    requires p.Ideal() && !integrity.NoIntegrity?
    ensures p.Verify(integrity, key, data, tag) <==> IsMac(p, integrity, key, data, tag)
    ensures IsMac(p, integrity, key, data, p.Mac(integrity, key, data))
  {
    assert |p.hmac(integrity.HashOf(), key, data)| == integrity.HashOf().OutputLen();
  }
}
