/** The keys of an IKE SA and of its CHILD SAs (RFC 7296 sections 2.13, 2.14
    and 2.17). */
module KeySchedule {
  import opened Bytes
  import opened Crypto
  import M = Messages
  import R = Reassembly
  import E = Esp

  /** The number of the last block `prf+` makes before its counter overflows. */
  const LAST_BLOCK: nat := 254

  // ---- prf+ ----------------------------------------------------------------------------

  /** Block `n`, from 1 on. */
  function Block(p: Primitives, prf: Crypto.Prf, key: bytes, seed: bytes, n: nat): bytes
    requires n < 0x100
  {
    if n == 0 then [] else p.Prf(prf, key, Block(p, prf, key, seed, n - 1) + seed + [n])
  }

  function Stream(p: Primitives, prf: Crypto.Prf, key: bytes, seed: bytes, n: nat): bytes
    requires n < 0x100
  {
    if n == 0 then [] else Stream(p, prf, key, seed, n - 1) + Block(p, prf, key, seed, n)
  }

  /** The first bytes of all the blocks there are. */
  function PrfPlus(p: Primitives, prf: Crypto.Prf, key: bytes, seed: bytes, len: nat): bytes
    requires len <= |Stream(p, prf, key, seed, LAST_BLOCK)|
  {
    Stream(p, prf, key, seed, LAST_BLOCK)[..len]
  }

  lemma {:induction false} StreamLength(p: Primitives, prf: Crypto.Prf, key: bytes, seed: bytes, n: nat)
    requires p.Ideal() && n < 0x100
    ensures |Stream(p, prf, key, seed, n)| == n * prf.KeyLen()
  {
    if n > 0 {
      StreamLength(p, prf, key, seed, n - 1);
      assert |Block(p, prf, key, seed, n)| == prf.KeyLen();
      assert n * prf.KeyLen() == (n - 1) * prf.KeyLen() + prf.KeyLen();
    }
  }

  lemma {:induction false} StreamGrows(p: Primitives, prf: Crypto.Prf, key: bytes, seed: bytes, n: nat, m: nat)
    requires n <= m < 0x100
    ensures Stream(p, prf, key, seed, n) <= Stream(p, prf, key, seed, m)
  {
    if n < m {
      StreamGrows(p, prf, key, seed, n, m - 1);
    }
  }

  /** The counter overflows, which the program cannot survive, if and only if
      more than 254 blocks are asked for; otherwise the result is the first
      `len` bytes of the blocks. */
  method ExpandKey(p: Primitives, prf: Crypto.Prf, key: bytes, seed: bytes, len: nat) returns (output: Option<bytes>)
    requires p.Ideal()
    ensures |Stream(p, prf, key, seed, LAST_BLOCK)| == LAST_BLOCK * prf.KeyLen()
    ensures output == if len <= LAST_BLOCK * prf.KeyLen() then Some(PrfPlus(p, prf, key, seed, len)) else None
  {
    StreamLength(p, prf, key, seed, LAST_BLOCK);
    var stream: bytes, previous: bytes := [], [];
    var counter: byte := 1;
    while |stream| < len
      invariant 1 <= counter
      invariant stream == Stream(p, prf, key, seed, counter - 1) && previous == Block(p, prf, key, seed, counter - 1)
      decreases 0x100 - counter
    {
      StreamLength(p, prf, key, seed, counter - 1);
      previous := p.Prf(prf, key, previous + seed + [counter]);
      stream := stream + previous;
      if counter == 0xff {
        return None;
      }
      counter := counter + 1;
    }
    StreamGrows(p, prf, key, seed, counter - 1, LAST_BLOCK);
    assert |stream| <= |Stream(p, prf, key, seed, LAST_BLOCK)|;
    assert stream[..len] == PrfPlus(p, prf, key, seed, len);
    output := Some(stream[..len]);
  }

  /** Asking for less gives the beginning of what asking for more gives. */
  lemma ShorterIsPrefix(p: Primitives, prf: Crypto.Prf, key: bytes, seed: bytes, n: nat, m: nat)
    requires p.Ideal() && n <= m <= LAST_BLOCK * prf.KeyLen()
    ensures |Stream(p, prf, key, seed, LAST_BLOCK)| == LAST_BLOCK * prf.KeyLen()
    ensures PrfPlus(p, prf, key, seed, n) <= PrfPlus(p, prf, key, seed, m)
  {
    StreamLength(p, prf, key, seed, LAST_BLOCK);
  }

  function Previous(blocks: seq<bytes>, i: nat): bytes
    requires i <= |blocks|
  {
    if i == 0 then [] else blocks[i - 1]
  }

  /** Each block is the HMAC of the one before it, the seed and its number. */
  ghost predicate IsChain(p: Primitives, hash: Hash, key: bytes, seed: bytes, blocks: seq<bytes>) {
    && |blocks| < 0x100
    && forall i :: 0 <= i < |blocks| ==> blocks[i] == p.hmac(hash, key, Previous(blocks, i) + seed + [i + 1])
  }

  /** `prf+` of RFC 7296 section 2.13: the beginning of such blocks. */
  ghost predicate IsPrfPlus(p: Primitives, hash: Hash, key: bytes, seed: bytes, output: bytes) {
    exists blocks :: IsChain(p, hash, key, seed, blocks) && output <= Joined(blocks)
  }

  lemma {:induction false} JoinedMore(blocks: seq<bytes>, last: bytes)
    ensures Joined(blocks + [last]) == Joined(blocks) + last
  {
    if blocks == [] {
      assert [last][1..] == [];
    } else {
      JoinedMore(blocks[1..], last);
      assert (blocks + [last])[1..] == blocks[1..] + [last];
      Grouped(blocks[0], Joined(blocks[1..]), last);
    }
  }

  lemma BlockIs(p: Primitives, prf: Crypto.Prf, key: bytes, seed: bytes, n: nat, previous: bytes)
    requires 0 < n < 0x100 && previous == if n == 1 then [] else Block(p, prf, key, seed, n - 1)
    ensures Block(p, prf, key, seed, n) == p.hmac(prf.HashOf(), key, previous + seed + [n])
  {
    assert Block(p, prf, key, seed, 0) == [];
  }

  lemma ChainMore(p: Primitives, hash: Hash, key: bytes, seed: bytes, blocks: seq<bytes>, last: bytes)
    requires IsChain(p, hash, key, seed, blocks) && |blocks| + 1 < 0x100
    requires last == p.hmac(hash, key, Previous(blocks, |blocks|) + seed + [|blocks| + 1])
    ensures IsChain(p, hash, key, seed, blocks + [last])
  {
    var more := blocks + [last];
    forall i | 0 <= i < |more| ensures more[i] == p.hmac(hash, key, Previous(more, i) + seed + [i + 1]) {
      assert Previous(more, i) == Previous(blocks, i);
    }
  }

  lemma {:induction false} StreamIsChain(p: Primitives, prf: Crypto.Prf, key: bytes, seed: bytes, n: nat) returns (blocks: seq<bytes>)
    requires n < 0x100
    ensures |blocks| == n && IsChain(p, prf.HashOf(), key, seed, blocks) && Joined(blocks) == Stream(p, prf, key, seed, n)
    ensures n > 0 ==> blocks[n - 1] == Block(p, prf, key, seed, n)
  {
    if n == 0 {
      blocks := [];
    } else {
      var before := StreamIsChain(p, prf, key, seed, n - 1);
      var last := Block(p, prf, key, seed, n);
      BlockIs(p, prf, key, seed, n, Previous(before, n - 1));
      ChainMore(p, prf.HashOf(), key, seed, before, last);
      JoinedMore(before, last);
      blocks := before + [last];
    }
  }

  lemma {:induction false} ChainsAgree(p: Primitives, hash: Hash, key: bytes, seed: bytes, a: seq<bytes>, b: seq<bytes>, n: nat)
    requires IsChain(p, hash, key, seed, a) && IsChain(p, hash, key, seed, b) && n <= |a| && n <= |b|
    ensures forall i :: 0 <= i < n ==> a[i] == b[i]
  {
    if n > 0 {
      ChainsAgree(p, hash, key, seed, a, b, n - 1);
      assert Previous(a, n - 1) == Previous(b, n - 1);
    }
  }

  lemma {:induction false} JoinedPrefix(blocks: seq<bytes>, n: nat)
    requires n <= |blocks|
    ensures Joined(blocks[..n]) <= Joined(blocks)
  {
    if n == 0 {
      assert Joined(blocks[..n]) == [];
    } else {
      JoinedPrefix(blocks[1..], n - 1);
      assert blocks[..n][0] == blocks[0] && blocks[..n][1..] == blocks[1..][..n - 1];
      var short, long := Joined(blocks[1..][..n - 1]), Joined(blocks[1..]);
      assert (blocks[0] + long)[..|blocks[0]| + |short|] == blocks[0] + long[..|short|];
    }
  }

  lemma OneOutput(p: Primitives, hash: Hash, key: bytes, seed: bytes, a: seq<bytes>, b: seq<bytes>, x: bytes, y: bytes)
    requires IsChain(p, hash, key, seed, a) && IsChain(p, hash, key, seed, b) && |a| <= |b|
    requires x <= Joined(a) && y <= Joined(b) && |x| == |y|
    ensures x == y
  {
    ChainsAgree(p, hash, key, seed, a, b, |a|);
    assert b[..|a|] == a;
    JoinedPrefix(b, |a|);
    assert x == Joined(b)[..|x|] && y == Joined(b)[..|x|];
  }

  /** There is but one `prf+` of each size. */
  lemma PrfPlusIsUnique(p: Primitives, hash: Hash, key: bytes, seed: bytes, x: bytes, y: bytes)
    requires IsPrfPlus(p, hash, key, seed, x) && IsPrfPlus(p, hash, key, seed, y) && |x| == |y|
    ensures x == y
  {
    var a :| IsChain(p, hash, key, seed, a) && x <= Joined(a);
    var b :| IsChain(p, hash, key, seed, b) && y <= Joined(b);
    if |a| <= |b| {
      OneOutput(p, hash, key, seed, a, b, x, y);
    } else {
      OneOutput(p, hash, key, seed, b, a, y, x);
    }
  }

  /** `PrfPlus` makes one. */
  lemma PrfPlusIsChain(p: Primitives, prf: Crypto.Prf, key: bytes, seed: bytes, len: nat)
    requires len <= |Stream(p, prf, key, seed, LAST_BLOCK)|
    ensures IsPrfPlus(p, prf.HashOf(), key, seed, PrfPlus(p, prf, key, seed, len))
  {
    var blocks := StreamIsChain(p, prf, key, seed, LAST_BLOCK);
    assert IsChain(p, prf.HashOf(), key, seed, blocks) && PrfPlus(p, prf, key, seed, len) <= Joined(blocks);
  }

  // ---- the seven keys --------------------------------------------------------------------

  /** A cipher the configuration can name. */
  predicate Real(c: Cipher) { c.ChaCha20Poly1305? || c.bits in {128, 192, 256} }

  predicate RealIke(a: IkeAlgorithms) { a.WellFormed() && Real(a.cipher) }

  /** SK_d, SK_ai, SK_ar, SK_ei, SK_er, SK_pi, SK_pr. */
  function Lengths(a: IkeAlgorithms): seq<nat> {
    [a.prf.KeyLen(), a.integrity.KeyLen(), a.integrity.KeyLen(), a.cipher.KeyLen(), a.cipher.KeyLen(), a.prf.KeyLen(), a.prf.KeyLen()]
  }

  function Sum(lengths: seq<nat>): nat {
    if lengths == [] then 0 else lengths[0] + Sum(lengths[1..])
  }

  /** The material cut in pieces of these lengths. */
  function Slices(material: bytes, lengths: seq<nat>): seq<bytes>
    requires Sum(lengths) <= |material|
  {
    if lengths == [] then [] else [material[..lengths[0]]] + Slices(material[lengths[0]..], lengths[1..])
  }

  lemma {:induction false} SlicesPartition(material: bytes, lengths: seq<nat>)
    requires Sum(lengths) == |material|
    ensures |Slices(material, lengths)| == |lengths| && Joined(Slices(material, lengths)) == material
    ensures forall i :: 0 <= i < |lengths| ==> |Slices(material, lengths)[i]| == lengths[i]
  {
    if lengths != [] {
      SlicesPartition(material[lengths[0]..], lengths[1..]);
      assert material == material[..lengths[0]] + material[lengths[0]..];
    }
  }

  datatype IkeKeys = IkeKeys(algorithms: IkeAlgorithms, skD: bytes, outbound: M.Keys, inbound: M.Keys, skPi: bytes, skPr: bytes)

  /** The initiator's view of the slices. */
  function FromSlices(a: IkeAlgorithms, s: seq<bytes>): IkeKeys
    requires |s| == 7
  {
    IkeKeys(a, s[0], M.Keys(a.cipher, a.integrity, s[3], s[1]), M.Keys(a.cipher, a.integrity, s[4], s[2]), s[5], s[6])
  }

  /** What both ends put in: the algorithms, SPIs, nonces, the shared secret
      and the SK_d of the SA being rekeyed. */
  datatype Secrets = Secrets(algorithms: IkeAlgorithms, spiI: u64, spiR: u64, nonceI: bytes, nonceR: bytes, shared: bytes, oldSkD: Option<bytes>)

  function SkeySeed(p: Primitives, s: Secrets): bytes {
    var nonces := s.nonceI + s.nonceR;
    match s.oldSkD
    case None => p.Prf(s.algorithms.prf, nonces, s.shared)
    case Some(skD) => p.Prf(s.algorithms.prf, skD, s.shared + nonces)
  }

  function Seed(s: Secrets): bytes {
    s.nonceI + s.nonceR + Be64(s.spiI) + Be64(s.spiR)
  }

  lemma SevenSum(l: seq<nat>)
    requires |l| == 7
    ensures Sum(l) == l[0] + l[1] + l[2] + l[3] + l[4] + l[5] + l[6]
  {
    assert l[5..][1..] == l[6..] && l[4..][1..] == l[5..] && l[3..][1..] == l[4..] && l[2..][1..] == l[3..] && l[1..][1..] == l[2..];
    assert Sum(l[6..]) == l[6] && Sum(l[5..]) == l[5] + l[6];
    assert Sum(l[3..]) == l[3] + Sum(l[4..]) && Sum(l[4..]) == l[4] + Sum(l[5..]);
    assert Sum(l[1..]) == l[1] + Sum(l[2..]) && Sum(l[2..]) == l[2] + Sum(l[3..]);
  }

  /** No algorithms ask `prf+` for more than it can make. */
  lemma EnoughForIke(a: IkeAlgorithms)
    requires RealIke(a)
    ensures Sum(Lengths(a)) == 3 * a.prf.KeyLen() + 2 * a.integrity.KeyLen() + 2 * a.cipher.KeyLen()
    ensures Sum(Lengths(a)) <= LAST_BLOCK * a.prf.KeyLen()
  {
    SevenSum(Lengths(a));
  }

  function Material(p: Primitives, s: Secrets): (material: bytes)
    requires p.Ideal() && RealIke(s.algorithms)
    ensures |material| == Sum(Lengths(s.algorithms))
  {
    EnoughForIke(s.algorithms);
    StreamLength(p, s.algorithms.prf, SkeySeed(p, s), Seed(s), LAST_BLOCK);
    PrfPlus(p, s.algorithms.prf, SkeySeed(p, s), Seed(s), Sum(Lengths(s.algorithms)))
  }

  function Derived(p: Primitives, s: Secrets): IkeKeys
    requires p.Ideal() && RealIke(s.algorithms)
  {
    SlicesPartition(Material(p, s), Lengths(s.algorithms));
    FromSlices(s.algorithms, Slices(Material(p, s), Lengths(s.algorithms)))
  }

  lemma NextSlice(material: bytes, lengths: seq<nat>, cursor: nat, k: nat)
    requires k < |lengths| && cursor <= |material| && Sum(lengths[k..]) <= |material| - cursor
    ensures cursor + lengths[k] <= |material| && Sum(lengths[k + 1..]) <= |material| - cursor - lengths[k]
    ensures Slices(material[cursor..], lengths[k..])
            == [material[cursor..cursor + lengths[k]]] + Slices(material[cursor + lengths[k]..], lengths[k + 1..])
  {
    assert lengths[k..][1..] == lengths[k + 1..];
    assert material[cursor..][..lengths[k]] == material[cursor..cursor + lengths[k]];
    assert material[cursor..][lengths[k]..] == material[cursor + lengths[k]..];
  }

  lemma Regrouped(before: seq<bytes>, one: bytes, after: seq<bytes>)
    ensures before + ([one] + after) == before + [one] + after
  {
  }

  /** The moving cursor over the material. */
  method CutMaterial(material: bytes, lengths: seq<nat>) returns (pieces: seq<bytes>)
    requires Sum(lengths) <= |material|
    ensures pieces == Slices(material, lengths)
  {
    var cursor := 0;
    pieces := [];
    assert lengths[0..] == lengths && material[0..] == material;
    while |pieces| < |lengths|
      invariant |pieces| <= |lengths| && 0 <= cursor <= |material| && Sum(lengths[|pieces|..]) <= |material| - cursor
      invariant Slices(material, lengths) == pieces + Slices(material[cursor..], lengths[|pieces|..])
      decreases |lengths| - |pieces|
    {
      var len := lengths[|pieces|];
      NextSlice(material, lengths, cursor, |pieces|);
      Regrouped(pieces, material[cursor..cursor + len], Slices(material[cursor + len..], lengths[|pieces| + 1..]));
      pieces := pieces + [material[cursor..cursor + len]];
      cursor := cursor + len;
    }
    assert pieces + [] == pieces;
  }

  /** The seven keys in the order of the material. */
  function AllKeys(k: IkeKeys): bytes {
    k.skD + k.outbound.integrityKey + k.inbound.integrityKey + k.outbound.encryption + k.inbound.encryption + k.skPi + k.skPr
  }

  /** The keys of an exchange: `prf+` of the nonces and SPIs, keyed with the
      HMAC of the shared secret under the nonces or, when an SA is rekeyed, of
      the shared secret and the nonces under the old SK_d. */
  ghost predicate AreKeysOf(p: Primitives, s: Secrets, k: IkeKeys) {
    var a, hash, nonces := s.algorithms, s.algorithms.prf.HashOf(), s.nonceI + s.nonceR;
    var seedKey := if s.oldSkD.None? then p.hmac(hash, nonces, s.shared) else p.hmac(hash, s.oldSkD.value, s.shared + nonces);
    && k.algorithms == a
    && IsPrfPlus(p, hash, seedKey, nonces + Be64(s.spiI) + Be64(s.spiR), AllKeys(k))
    && |k.skD| == |k.skPi| == |k.skPr| == a.prf.KeyLen()
    && |k.outbound.integrityKey| == |k.inbound.integrityKey| == a.integrity.KeyLen()
    && |k.outbound.encryption| == |k.inbound.encryption| == a.cipher.KeyLen()
    && k.outbound.cipher == k.inbound.cipher == a.cipher && k.outbound.integrity == k.inbound.integrity == a.integrity
  }

  lemma SevenConcat(s: seq<bytes>)
    requires |s| == 7
    ensures Joined(s) == s[0] + s[1] + s[2] + s[3] + s[4] + s[5] + s[6]
  {
    assert Joined(s[6..]) == s[6];
    assert s[5..][1..] == s[6..] && s[4..][1..] == s[5..] && s[3..][1..] == s[4..] && s[2..][1..] == s[3..] && s[1..][1..] == s[2..];
    assert Joined(s[5..]) == s[5] + s[6];
    assert Joined(s[4..]) == s[4] + (s[5] + s[6]);
    assert Joined(s[3..]) == s[3] + (s[4] + (s[5] + s[6]));
    assert Joined(s[2..]) == s[2] + (s[3] + (s[4] + (s[5] + s[6])));
    assert Joined(s[1..]) == s[1] + (s[2] + (s[3] + (s[4] + (s[5] + s[6]))));
  }

  /** The seven keys are the material, cut without a gap or an overlap, and
      each has the size its algorithm wants. */
  lemma KeysPartitionMaterial(p: Primitives, s: Secrets)
    requires p.Ideal() && RealIke(s.algorithms)
    ensures var k := Derived(p, s);
            && AllKeys(k) == Material(p, s)
            && k.outbound.Valid() && k.inbound.Valid()
            && |k.outbound.integrityKey| == |k.inbound.integrityKey| == s.algorithms.integrity.KeyLen()
            && |k.skD| == |k.skPi| == |k.skPr| == s.algorithms.prf.KeyLen()
  {
    var pieces := Slices(Material(p, s), Lengths(s.algorithms));
    SlicesPartition(Material(p, s), Lengths(s.algorithms));
    SevenConcat(pieces);
  }

  lemma {:induction false} SamePieces(a: seq<bytes>, b: seq<bytes>)
    requires |a| == |b| && Joined(a) == Joined(b) && forall i :: 0 <= i < |a| ==> |a[i]| == |b[i]|
    ensures forall i :: 0 <= i < |a| ==> a[i] == b[i]
  {
    if a != [] {
      assert a[0] == Joined(a)[..|a[0]|] && b[0] == Joined(b)[..|a[0]|];
      assert Joined(a[1..]) == Joined(a)[|a[0]|..] && Joined(b[1..]) == Joined(b)[|a[0]|..];
      SamePieces(a[1..], b[1..]);
      forall i | 0 <= i < |a| ensures a[i] == b[i] {
        assert i > 0 ==> a[i] == a[1..][i - 1] && b[i] == b[1..][i - 1];
      }
    }
  }

  lemma KeysCut(k: IkeKeys, k': IkeKeys)
    requires AllKeys(k) == AllKeys(k')
    requires |k.skD| == |k'.skD| && |k.outbound.integrityKey| == |k'.outbound.integrityKey| && |k.inbound.integrityKey| == |k'.inbound.integrityKey|
    requires |k.outbound.encryption| == |k'.outbound.encryption| && |k.inbound.encryption| == |k'.inbound.encryption|
    requires |k.skPi| == |k'.skPi| && |k.skPr| == |k'.skPr|
    ensures k.skD == k'.skD && k.outbound.integrityKey == k'.outbound.integrityKey && k.inbound.integrityKey == k'.inbound.integrityKey
    ensures k.outbound.encryption == k'.outbound.encryption && k.inbound.encryption == k'.inbound.encryption
    ensures k.skPi == k'.skPi && k.skPr == k'.skPr
  {
    var a := [k.skD, k.outbound.integrityKey, k.inbound.integrityKey, k.outbound.encryption, k.inbound.encryption, k.skPi, k.skPr];
    var b := [k'.skD, k'.outbound.integrityKey, k'.inbound.integrityKey, k'.outbound.encryption, k'.inbound.encryption, k'.skPi, k'.skPr];
    SevenConcat(a);
    SevenConcat(b);
    SamePieces(a, b);
    assert a[0] == b[0] && a[1] == b[1] && a[2] == b[2] && a[3] == b[3] && a[4] == b[4] && a[5] == b[5] && a[6] == b[6];
  }

  /** And no others are. */
  lemma KeysAreUnique(p: Primitives, s: Secrets, k: IkeKeys, k': IkeKeys)
    requires AreKeysOf(p, s, k) && AreKeysOf(p, s, k')
    ensures k == k'
  {
    var hash, nonces := s.algorithms.prf.HashOf(), s.nonceI + s.nonceR;
    var seedKey := if s.oldSkD.None? then p.hmac(hash, nonces, s.shared) else p.hmac(hash, s.oldSkD.value, s.shared + nonces);
    PrfPlusIsUnique(p, hash, seedKey, nonces + Be64(s.spiI) + Be64(s.spiR), AllKeys(k), AllKeys(k'));
    KeysCut(k, k');
  }

  /** The derived keys are those of the exchange. */
  lemma DerivedAreKeys(p: Primitives, s: Secrets)
    requires p.Ideal() && RealIke(s.algorithms)
    ensures AreKeysOf(p, s, Derived(p, s))
  {
    KeysPartitionMaterial(p, s);
    StreamLength(p, s.algorithms.prf, SkeySeed(p, s), Seed(s), LAST_BLOCK);
    EnoughForIke(s.algorithms);
    PrfPlusIsChain(p, s.algorithms.prf, SkeySeed(p, s), Seed(s), Sum(Lengths(s.algorithms)));
  }

  method Derive(p: Primitives, s: Secrets) returns (keys: IkeKeys)
    requires p.Ideal() && RealIke(s.algorithms)
    ensures keys == Derived(p, s) && AreKeysOf(p, s, keys)
  {
    DerivedAreKeys(p, s);
    var a := s.algorithms;
    var nonces := s.nonceI + s.nonceR;
    var skeyseed := if s.oldSkD.None? then p.Prf(a.prf, nonces, s.shared) else p.Prf(a.prf, s.oldSkD.value, s.shared + nonces);
    var seed := nonces;
    seed := seed + Be64(s.spiI);
    seed := seed + Be64(s.spiR);
    var d, i, e := a.prf.KeyLen(), a.integrity.KeyLen(), a.cipher.KeyLen();
    EnoughForIke(a);
    var expanded := ExpandKey(p, a.prf, skeyseed, seed, d + 2 * i + 2 * e + 2 * d);
    var material := expanded.value;
    assert material == Material(p, s);
    var pieces := CutMaterial(material, Lengths(a));
    SlicesPartition(material, Lengths(a));
    keys := FromSlices(a, pieces);
  }

  // ---- both ends -------------------------------------------------------------------------

  /** The keys of the other end, from its side. */
  function SwapRoles(k: IkeKeys): IkeKeys {
    k.(outbound := k.inbound, inbound := k.outbound, skPi := k.skPr, skPr := k.skPi)
  }

  /** The initiator's keys and the responder's, of one exchange: what either
      end seals the other opens, whatever the message and its fragment. */
  lemma MirroredKeysCarryMessages(p: Primitives, s: Secrets, fromInitiator: bool, m: M.Message, next: byte, plain: bytes,
                                  fragment: Option<(u16, u16)>, random: bytes)
    requires p.Ideal() && RealIke(s.algorithms) && M.RandomFits(s.algorithms.cipher, random)
    requires var initiator, responder := Derived(p, s), SwapRoles(Derived(p, s));
             M.Seal(p, m, if fromInitiator then initiator.outbound else responder.outbound, next, plain, fragment, random).Ok?
    ensures var initiator, responder := Derived(p, s), SwapRoles(Derived(p, s));
            var d := M.Seal(p, m, if fromInitiator then initiator.outbound else responder.outbound, next, plain, fragment, random).value;
            && M.Parse(d).Ok?
            && M.Decrypt(p, M.Parse(d).value, if fromInitiator then responder.inbound else initiator.inbound)
               == Ok(R.Decrypted(next, plain, fragment))
            && initiator.skPi == responder.skPr && initiator.skPr == responder.skPi && initiator.skD == responder.skD
  {
    KeysPartitionMaterial(p, s);
    var initiator, responder := Derived(p, s), SwapRoles(Derived(p, s));
    M.SealedOpens(p, m, if fromInitiator then initiator.outbound else responder.outbound, next, plain, fragment, random);
  }

  // ---- CHILD SAs -------------------------------------------------------------------------

  predicate RealEsp(a: EspAlgorithms) { a.WellFormed() && Real(a.cipher) }

  lemma EnoughForEsp(a: EspAlgorithms, prf: Crypto.Prf)
    requires RealEsp(a)
    ensures E.KeymatLen(a) <= LAST_BLOCK * prf.KeyLen()
  {
  }

  function ChildSeed(shared: Option<bytes>, nonceI: bytes, nonceR: bytes): bytes {
    (if shared.Some? then shared.value else []) + nonceI + nonceR
  }

  /** `prf+(SK_d, [g^ir |] Ni | Nr)`, of the size the algorithms want. */
  function ChildKeymat(p: Primitives, k: IkeKeys, shared: Option<bytes>, nonceI: bytes, nonceR: bytes, a: EspAlgorithms): (keymat: bytes)
    requires p.Ideal() && RealEsp(a)
    ensures |keymat| == E.KeymatLen(a)
  {
    EnoughForEsp(a, k.algorithms.prf);
    StreamLength(p, k.algorithms.prf, k.skD, ChildSeed(shared, nonceI, nonceR), LAST_BLOCK);
    PrfPlus(p, k.algorithms.prf, k.skD, ChildSeed(shared, nonceI, nonceR), E.KeymatLen(a))
  }

  lemma ChildKeymatIsPrfPlus(p: Primitives, k: IkeKeys, shared: Option<bytes>, nonceI: bytes, nonceR: bytes, a: EspAlgorithms)
    requires p.Ideal() && RealEsp(a)
    ensures IsPrfPlus(p, k.algorithms.prf.HashOf(), k.skD, (if shared.Some? then shared.value else []) + nonceI + nonceR,
                      ChildKeymat(p, k, shared, nonceI, nonceR, a))
  {
    EnoughForEsp(a, k.algorithms.prf);
    StreamLength(p, k.algorithms.prf, k.skD, ChildSeed(shared, nonceI, nonceR), LAST_BLOCK);
    PrfPlusIsChain(p, k.algorithms.prf, k.skD, ChildSeed(shared, nonceI, nonceR), E.KeymatLen(a));
  }

  method MakeChildKeymat(p: Primitives, k: IkeKeys, shared: Option<bytes>, nonceI: bytes, nonceR: bytes, a: EspAlgorithms)
    returns (keymat: bytes)
    requires p.Ideal() && RealEsp(a)
    ensures keymat == ChildKeymat(p, k, shared, nonceI, nonceR, a)
    ensures IsPrfPlus(p, k.algorithms.prf.HashOf(), k.skD, (if shared.Some? then shared.value else []) + nonceI + nonceR, keymat)
    ensures |keymat| == 2 * (a.cipher.KeyLen() + a.integrity.KeyLen())
  {
    ChildKeymatIsPrfPlus(p, k, shared, nonceI, nonceR, a);
    var seed := if shared.Some? then shared.value else [];
    seed := seed + nonceI;
    seed := seed + nonceR;
    EnoughForEsp(a, k.algorithms.prf);
    var expanded := ExpandKey(p, k.algorithms.prf, k.skD, seed, E.KeymatLen(a));
    keymat := expanded.value;
  }

  /** Both ends of an exchange make CHILD SAs with mirrored keys. */
  lemma ChildSasMirror(p: Primitives, s: Secrets, shared: Option<bytes>, nonceI: bytes, nonceR: bytes, a: EspAlgorithms, spiI: u32, spiR: u32)
    requires p.Ideal() && RealIke(s.algorithms) && RealEsp(a)
    ensures var initiator, responder := Derived(p, s), SwapRoles(Derived(p, s));
            var i := E.NewSa(a, spiI, spiR, ChildKeymat(p, initiator, shared, nonceI, nonceR, a), true);
            var r := E.NewSa(a, spiR, spiI, ChildKeymat(p, responder, shared, nonceI, nonceR, a), false);
            && i.Ok? && r.Ok?
            && E.Mirrored(i.value.params, r.value.params) && E.Mirrored(r.value.params, i.value.params)
  {
    E.NewSasMirror(a, spiI, spiR, ChildKeymat(p, Derived(p, s), shared, nonceI, nonceR, a));
  }
}
