/** What is offered, and what is chosen out of any proposals, of whatever
    other program (RFC 7296 sections 2.7 and 3.3). */
module ProposalChoice {
  import opened Bytes
  import opened Crypto
  import opened Proposals
  import Codec = ProposalCodec

  /** A transform of this type and id, with this key length if it has one. */
  ghost predicate Includes(p: Codec.Proposal, kind: Codec.TransformType, id: u16, bits: Option<u16>) {
    exists t :: t in p.transforms && t.kind == kind && t.id == id && (bits.Some? ==> t.keyBits == bits)
  }

  /** The cipher with its key length, and its integrity algorithm unless it is
      an AEAD. */
  ghost predicate IncludesCipher(p: Codec.Proposal, cipher: Cipher, integrity: Integrity) {
    && Includes(p, Codec.Encryption, cipher.Id(), if cipher.ChaCha20Poly1305? then None else Some(cipher.bits))
    && (cipher.AesCbc? ==> Includes(p, Codec.Integrity, integrity.Id(), None))
  }

  // ---- IKE -------------------------------------------------------------------------------

  /** All of a set, with the group of the KE payload if there is one. */
  ghost predicate IkeFits(p: Codec.Proposal, choice: IkeAlgorithms, group: Option<Group>) {
    && (group.Some? ==> choice.group == group.value)
    && IncludesCipher(p, choice.cipher, choice.integrity)
    && Includes(p, Codec.PseudoRandom, choice.prf.Id(), None) && Includes(p, Codec.DiffieHellman, choice.group.Id(), None)
  }

  lemma FitsIsOffered(p: Codec.Proposal, choice: IkeAlgorithms, group: Option<Group>)
    ensures IkeFits(p, choice, group) <==> OffersIke(p, choice, group)
  {
  }

  /** Set `i` of ours is the first that the proposal includes. */
  ghost predicate FirstIkeFit(p: Codec.Proposal, ours: seq<IkeAlgorithms>, group: Option<Group>, i: nat) {
    i < |ours| && IkeFits(p, ours[i], group) && forall j :: 0 <= j < i ==> !IkeFits(p, ours[j], group)
  }

  lemma {:induction false} FindsFirstIke(p: Codec.Proposal, ours: seq<IkeAlgorithms>, group: Option<Group>)
    ensures FindIke(p, ours, group).None? <==> forall i :: 0 <= i < |ours| ==> !IkeFits(p, ours[i], group)
    ensures forall i: nat :: FirstIkeFit(p, ours, group, i) ==> FindIke(p, ours, group) == Some(ours[i])
  {
    if ours != [] {
      FitsIsOffered(p, ours[0], group);
      FindsFirstIke(p, ours[1..], group);
      if !IkeFits(p, ours[0], group) {
        forall i: nat | FirstIkeFit(p, ours, group, i) ensures FindIke(p, ours, group) == Some(ours[i]) {
          assert FirstIkeFit(p, ours[1..], group, i - 1);
        }
        if FindIke(p, ours[1..], group).None? {
          forall i | 0 <= i < |ours| ensures !IkeFits(p, ours[i], group) {
            assert i > 0 ==> ours[i] == ours[1..][i - 1];
          }
        } else {
          var i :| 0 <= i < |ours[1..]| && IkeFits(p, ours[1..][i], group);
          assert ours[i + 1] == ours[1..][i];
        }
      }
    }
  }

  lemma {:induction false} SomeFirst(p: Codec.Proposal, ours: seq<IkeAlgorithms>, group: Option<Group>, n: nat) returns (i: nat)
    requires n < |ours| && IkeFits(p, ours[n], group)
    ensures FirstIkeFit(p, ours, group, i)
  {
    if j :| 0 <= j < n && IkeFits(p, ours[j], group) {
      i := SomeFirst(p, ours, group, j);
    } else {
      i := n;
    }
  }

  /** Of a proposal for IKE whose transforms are all known, the first of our
      sets that it includes is selected; any other proposal is refused. */
  lemma SelectsFirstIke(p: Codec.Proposal, ours: seq<IkeAlgorithms>, group: Option<Group>, choice: IkeAlgorithms)
    ensures SelectIke(p, ours, group) == Ok(choice) <==>
              p.protocol == Codec.Ike && !p.foreign && exists i: nat :: FirstIkeFit(p, ours, group, i) && ours[i] == choice
  {
    FindsFirstIke(p, ours, group);
    if FindIke(p, ours, group).Some? {
      var n :| 0 <= n < |ours| && IkeFits(p, ours[n], group);
      var i := SomeFirst(p, ours, group, n);
      assert FindIke(p, ours, group) == Some(ours[i]);
    }
  }

  // ---- ESP -------------------------------------------------------------------------------

  ghost predicate HasGroups(p: Codec.Proposal) { exists t :: t in p.transforms && t.kind == Codec.DiffieHellman }

  /** A set, with its group if the proposal has any, that of the KE payload if
      there is one. */
  ghost predicate EspFits(p: Codec.Proposal, choice: EspAlgorithms, group: Option<Group>) {
    && IncludesCipher(p, choice.cipher, choice.integrity)
    && (HasGroups(p) ==>
          && choice.group.Some? && (group.Some? ==> group == choice.group)
          && Includes(p, Codec.DiffieHellman, choice.group.value.Id(), None))
  }

  function WithGroup(p: Codec.Proposal, choice: EspAlgorithms): EspAlgorithms {
    if Has(p, Codec.DiffieHellman) then choice else EspAlgorithms(choice.cipher, choice.integrity, None)
  }

  lemma EspFitsIsMatched(p: Codec.Proposal, choice: EspAlgorithms, group: Option<Group>)
    ensures HasGroups(p) <==> Has(p, Codec.DiffieHellman)
    ensures EspFits(p, choice, group) <==> MatchEsp(p, choice, group).Some?
    ensures EspFits(p, choice, group) ==> MatchEsp(p, choice, group) == Some(WithGroup(p, choice))
  {
  }

  ghost predicate FirstEspFit(p: Codec.Proposal, ours: seq<EspAlgorithms>, group: Option<Group>, i: nat) {
    i < |ours| && EspFits(p, ours[i], group) && forall j :: 0 <= j < i ==> !EspFits(p, ours[j], group)
  }

  lemma {:induction false} FindsFirstEsp(p: Codec.Proposal, ours: seq<EspAlgorithms>, group: Option<Group>)
    ensures FindEsp(p, ours, group).None? <==> forall i :: 0 <= i < |ours| ==> !EspFits(p, ours[i], group)
    ensures forall i: nat :: FirstEspFit(p, ours, group, i) ==> FindEsp(p, ours, group) == Some(WithGroup(p, ours[i]))
  {
    if ours != [] {
      EspFitsIsMatched(p, ours[0], group);
      FindsFirstEsp(p, ours[1..], group);
      if !EspFits(p, ours[0], group) {
        forall i: nat | FirstEspFit(p, ours, group, i) ensures FindEsp(p, ours, group) == Some(WithGroup(p, ours[i])) {
          assert FirstEspFit(p, ours[1..], group, i - 1);
        }
        if FindEsp(p, ours[1..], group).None? {
          forall i | 0 <= i < |ours| ensures !EspFits(p, ours[i], group) {
            assert i > 0 ==> ours[i] == ours[1..][i - 1];
          }
        } else {
          var i :| 0 <= i < |ours[1..]| && EspFits(p, ours[1..][i], group);
          assert ours[i + 1] == ours[1..][i];
        }
      }
    }
  }

  lemma {:induction false} SomeFirstEsp(p: Codec.Proposal, ours: seq<EspAlgorithms>, group: Option<Group>, n: nat) returns (i: nat)
    requires n < |ours| && EspFits(p, ours[n], group)
    ensures FirstEspFit(p, ours, group, i)
  {
    if j :| 0 <= j < n && EspFits(p, ours[j], group) {
      i := SomeFirstEsp(p, ours, group, j);
    } else {
      i := n;
    }
  }

  /** A proposal for ESP that can be accepted at all: all its transforms are
      known, its SPI has 4 bytes, and it does not insist on long sequence
      numbers. */
  ghost predicate EspIsSound(p: Codec.Proposal) {
    && p.protocol == Codec.Esp && !p.foreign && |p.spi| == 4
    && ((exists t :: t in p.transforms && t.kind == Codec.Esn) ==> Includes(p, Codec.Esn, 0, None))
  }

  /** Of such a proposal the first of our sets that it includes is selected,
      with its group just when the proposal has groups, and with its SPI. */
  lemma SelectsFirstEsp(p: Codec.Proposal, ours: seq<EspAlgorithms>, group: Option<Group>, choice: EspAlgorithms, spi: u32)
    ensures SelectEsp(p, ours, group) == Ok((choice, spi)) <==>
              EspIsSound(p) && p.spi == Be32(spi) && exists i: nat :: FirstEspFit(p, ours, group, i) && WithGroup(p, ours[i]) == choice
  {
    FindsFirstEsp(p, ours, group);
    if |p.spi| == 4 {
      FromBe32RoundTrip(p.spi);
      Be32RoundTrip(spi);
    }
    if FindEsp(p, ours, group).Some? {
      var n :| 0 <= n < |ours| && EspFits(p, ours[n], group);
      var i := SomeFirstEsp(p, ours, group, n);
      assert FindEsp(p, ours, group) == Some(WithGroup(p, ours[i]));
    }
  }
}
