/** Algorithm negotiation: what is offered, what is selected, and that both
    ends select the same (RFC 7296 section 2.7). */
module Proposals {
  import opened Bytes
  import opened Crypto
  import Codec = ProposalCodec

  type Proposal = Codec.Proposal
  type Transform = Codec.Transform

  // ---- algorithm sets out of words -------------------------------------------------------

  /** A word of a proposal in the configuration. An integrity word never names
      the absent algorithm. */
  datatype Word = CipherWord(cipher: Cipher) | PrfWord(prf: Crypto.Prf) | IntegrityWord(integrity: Integrity) | GroupWord(group: Group) | UnknownWord
  {
    predicate Real() { IntegrityWord? ==> !integrity.NoIntegrity? }
  }

  datatype Parts = Parts(cipher: Option<Cipher>, prf: Option<Crypto.Prf>, integrity: Option<Integrity>, group: Option<Group>)

  /** The PRF of the same hash. */
  function PrfForIntegrity(integrity: Integrity): (prf: Option<Crypto.Prf>)
    ensures prf.None? <==> integrity.NoIntegrity?
    ensures prf.Some? ==> prf.value.HashOf() == integrity.HashOf()
  {
    match integrity
    case NoIntegrity => None
    case HmacMd5_96 => Some(PrfMd5)
    case HmacSha1_96 => Some(PrfSha1)
    case HmacSha256_128 => Some(PrfSha256)
    case HmacSha384_192 => Some(PrfSha384)
    case HmacSha512_256 => Some(PrfSha512)
  }

  function Put(parts: Parts, w: Word): Parts {
    match w
    case CipherWord(cipher) => parts.(cipher := Some(cipher))
    case PrfWord(prf) => parts.(prf := Some(prf))
    case IntegrityWord(integrity) => parts.(integrity := Some(integrity))
    case GroupWord(group) => parts.(group := Some(group))
    case UnknownWord => parts
  }

  /** What a list of words names. */
  function PartsOf(words: seq<Word>): Parts {
    if words == [] then Parts(None, None, None, None) else Put(PartsOf(words[..|words| - 1]), words[|words| - 1])
  }

  /** `found` is the last word of a kind, None if no word is. */
  ghost predicate Latest(words: seq<Word>, kind: Word -> bool, found: Option<Word>) {
    match found
    case None => forall w :: w in words ==> !kind(w)
    case Some(w) => exists i :: 0 <= i < |words| && words[i] == w && kind(w) && forall j :: i < j < |words| ==> !kind(words[j])
  }

  lemma LatestGrows(words: seq<Word>, w: Word, kind: Word -> bool, found: Option<Word>)
    requires Latest(words, kind, found)
    ensures Latest(words + [w], kind, if kind(w) then Some(w) else found)
  {
    var all := words + [w];
    if kind(w) {
      assert all[|words|] == w;
    } else if found.Some? {
      var i :| 0 <= i < |words| && words[i] == found.value && kind(found.value) && forall j :: i < j < |words| ==> !kind(words[j]);
      assert all[i] == found.value;
    }
  }

  function Worded<T>(o: Option<T>, word: T -> Word): Option<Word> {
    if o.Some? then Some(word(o.value)) else None
  }

  ghost predicate Names(words: seq<Word>, parts: Parts) {
    && Latest(words, (w: Word) => w.CipherWord?, Worded(parts.cipher, c => CipherWord(c)))
    && Latest(words, (w: Word) => w.PrfWord?, Worded(parts.prf, p => PrfWord(p)))
    && Latest(words, (w: Word) => w.IntegrityWord?, Worded(parts.integrity, i => IntegrityWord(i)))
    && Latest(words, (w: Word) => w.GroupWord?, Worded(parts.group, g => GroupWord(g)))
  }

  lemma PutNames(words: seq<Word>, w: Word, parts: Parts)
    requires Names(words, parts)
    ensures Names(words + [w], Put(parts, w))
  {
    LatestGrows(words, w, (w: Word) => w.CipherWord?, Worded(parts.cipher, c => CipherWord(c)));
    LatestGrows(words, w, (w: Word) => w.PrfWord?, Worded(parts.prf, p => PrfWord(p)));
    LatestGrows(words, w, (w: Word) => w.IntegrityWord?, Worded(parts.integrity, i => IntegrityWord(i)));
    LatestGrows(words, w, (w: Word) => w.GroupWord?, Worded(parts.group, g => GroupWord(g)));
  }

  /** Of each kind the last word is in force. */
  lemma {:induction false} PartsAreLatest(words: seq<Word>)
    ensures Names(words, PartsOf(words))
  {
    if words != [] {
      var before, w := words[..|words| - 1], words[|words| - 1];
      PartsAreLatest(before);
      PutNames(before, w, PartsOf(before));
      assert words == before + [w];
    }
  }

  method SplitParts(words: seq<Word>) returns (r: Result<Parts>)
    ensures r == if UnknownWord in words then Err(Malformed) else Ok(PartsOf(words))
  {
    var parts := Parts(None, None, None, None);
    var i := 0;
    while i < |words|
      invariant 0 <= i <= |words|
      invariant UnknownWord !in words[..i] && parts == PartsOf(words[..i])
    {
      assert words[i] in words && words[..i + 1] == words[..i] + [words[i]];
      match words[i] {
        case CipherWord(cipher) => parts := parts.(cipher := Some(cipher));
        case PrfWord(prf) => parts := parts.(prf := Some(prf));
        case IntegrityWord(integrity) => parts := parts.(integrity := Some(integrity));
        case GroupWord(group) => parts := parts.(group := Some(group));
        case UnknownWord => return Err(Malformed);
      }
      i := i + 1;
    }
    assert words[..i] == words;
    r := Ok(parts);
  }

  predicate AllReal(words: seq<Word>) { forall w :: w in words ==> w.Real() }

  /** All that is needed is named: a cipher, an integrity algorithm unless the
      cipher is an AEAD. */
  predicate Covers(words: seq<Word>) {
    var parts := PartsOf(words);
    UnknownWord !in words && parts.cipher.Some? && (parts.cipher.value.IsAead() || parts.integrity.Some?)
  }

  /** And for IKE a group, and a PRF or an integrity algorithm that stands for one. */
  predicate CoversIke(words: seq<Word>) {
    Covers(words) && PartsOf(words).group.Some? && (PartsOf(words).prf.Some? || PartsOf(words).integrity.Some?)
  }

  /** The set has what the words name; an AEAD cipher has no integrity algorithm. */
  predicate IsIkeOf(choice: IkeAlgorithms, words: seq<Word>) {
    var parts := PartsOf(words);
    && parts.cipher == Some(choice.cipher) && parts.group == Some(choice.group)
    && (if parts.prf.Some? then parts.prf == Some(choice.prf)
        else parts.integrity.Some? && PrfForIntegrity(parts.integrity.value) == Some(choice.prf))
    && (if choice.cipher.IsAead() then choice.integrity.NoIntegrity? else parts.integrity == Some(choice.integrity))
  }

  predicate IsEspOf(choice: EspAlgorithms, words: seq<Word>) {
    var parts := PartsOf(words);
    && parts.cipher == Some(choice.cipher) && parts.group == choice.group
    && (if choice.cipher.IsAead() then choice.integrity.NoIntegrity? else parts.integrity == Some(choice.integrity))
  }

  lemma {:induction false} PartsAreReal(words: seq<Word>)
    requires AllReal(words)
    ensures PartsOf(words).integrity != Some(NoIntegrity)
  {
    if words != [] {
      PartsAreReal(words[..|words| - 1]);
      assert words[|words| - 1] in words;
    }
  }

  /** One set for each proposal, in order; refused if and only if there is
      none, or one names an unknown algorithm or not enough. */
  method ParseIke(specs: seq<seq<Word>>) returns (r: Result<seq<IkeAlgorithms>>)
    requires forall s :: s in specs ==> AllReal(s)
    ensures r.Ok? <==> specs != [] && forall s :: s in specs ==> CoversIke(s)
    ensures r.Ok? ==> |r.value| == |specs|
    ensures r.Ok? ==> forall i :: 0 <= i < |r.value| ==> r.value[i].WellFormed() && IsIkeOf(r.value[i], specs[i])
  {
    var sets: seq<IkeAlgorithms>, i := [], 0;
    while i < |specs|
      invariant 0 <= i == |sets| <= |specs|
      invariant forall k :: 0 <= k < i ==> sets[k].WellFormed() && IsIkeOf(sets[k], specs[k]) && CoversIke(specs[k])
    {
      assert specs[i] in specs;
      PartsAreReal(specs[i]);
      var parts :- SplitParts(specs[i]);
      if parts.cipher.None? || parts.group.None? {
        return Err(Malformed);
      }
      var cipher := parts.cipher.value;
      var implied := if parts.integrity.Some? then PrfForIntegrity(parts.integrity.value) else None;
      var prf := if parts.prf.Some? then parts.prf else implied;
      if (!cipher.IsAead() && parts.integrity.None?) || prf.None? {
        return Err(Malformed);
      }
      var integrity := if cipher.IsAead() then NoIntegrity else parts.integrity.value;
      sets := sets + [IkeAlgorithms(cipher, prf.value, integrity, parts.group.value)];
      i := i + 1;
    }
    if sets == [] {
      return Err(Malformed);
    }
    r := Ok(sets);
  }

  method ParseEsp(specs: seq<seq<Word>>) returns (r: Result<seq<EspAlgorithms>>)
    requires forall s :: s in specs ==> AllReal(s)
    ensures r.Ok? <==> specs != [] && forall s :: s in specs ==> Covers(s)
    ensures r.Ok? ==> |r.value| == |specs|
    ensures r.Ok? ==> forall i :: 0 <= i < |r.value| ==> r.value[i].WellFormed() && IsEspOf(r.value[i], specs[i])
  {
    var sets: seq<EspAlgorithms>, i := [], 0;
    while i < |specs|
      invariant 0 <= i == |sets| <= |specs|
      invariant forall k :: 0 <= k < i ==> sets[k].WellFormed() && IsEspOf(sets[k], specs[k]) && Covers(specs[k])
    {
      assert specs[i] in specs;
      PartsAreReal(specs[i]);
      var parts :- SplitParts(specs[i]);
      if parts.cipher.None? || (!parts.cipher.value.IsAead() && parts.integrity.None?) {
        return Err(Malformed);
      }
      var cipher := parts.cipher.value;
      sets := sets + [EspAlgorithms(cipher, if cipher.IsAead() then NoIntegrity else parts.integrity.value, parts.group)];
      i := i + 1;
    }
    if sets == [] {
      return Err(Malformed);
    }
    r := Ok(sets);
  }

  // ---- offering -------------------------------------------------------------------------

  function CipherTransform(cipher: Cipher): Transform {
    Codec.Transform(Codec.Encryption, cipher.Id(), cipher.KeyBits())
  }

  function Simple(kind: Codec.TransformType, id: u16): Transform {
    Codec.Transform(kind, id, None)
  }

  function IntegrityTransforms(cipher: Cipher, integrity: Integrity): seq<Transform> {
    if cipher.IsAead() then [] else [Simple(Codec.Integrity, integrity.Id())]
  }

  function IkeTransforms(choice: IkeAlgorithms): seq<Transform> {
    [CipherTransform(choice.cipher), Simple(Codec.PseudoRandom, choice.prf.Id())]
    + IntegrityTransforms(choice.cipher, choice.integrity) + [Simple(Codec.DiffieHellman, choice.group.Id())]
  }

  function GroupTransforms(group: Option<Group>): seq<Transform> {
    if group.Some? then [Simple(Codec.DiffieHellman, group.value.Id())] else []
  }

  function EspTransforms(choice: EspAlgorithms, withGroups: bool): seq<Transform> {
    [CipherTransform(choice.cipher)] + IntegrityTransforms(choice.cipher, choice.integrity)
    + GroupTransforms(if withGroups then choice.group else None) + [Simple(Codec.Esn, 0)]
  }

  function IkeProposal(choice: IkeAlgorithms, number: byte, spi: seq<byte>): Proposal {
    Codec.Proposal(number, Codec.Ike, spi, IkeTransforms(choice), false)
  }

  function EspProposal(choice: EspAlgorithms, number: byte, spi: u32, withGroups: bool): Proposal {
    Codec.Proposal(number, Codec.Esp, Be32(spi), EspTransforms(choice, withGroups), false)
  }

  /** One proposal for each set, numbered from 1. */
  function IkeProposals(sets: seq<IkeAlgorithms>): seq<Proposal>
    requires |sets| < 0x100
  {
    seq(|sets|, i requires 0 <= i < |sets| => IkeProposal(sets[i], i + 1, []))
  }

  function EspProposals(sets: seq<EspAlgorithms>, spi: u32, withGroups: bool): seq<Proposal>
    requires |sets| < 0x100
  {
    seq(|sets|, i requires 0 <= i < |sets| => EspProposal(sets[i], i + 1, spi, withGroups))
  }

  // ---- selecting ------------------------------------------------------------------------

  predicate Has(p: Proposal, kind: Codec.TransformType) {
    exists t :: t in p.transforms && t.kind == kind
  }

  predicate Offers(p: Proposal, kind: Codec.TransformType, id: u16, keyBits: Option<u16>) {
    exists t :: t in p.transforms && t.kind == kind && t.id == id && (keyBits.None? || t.keyBits == keyBits)
  }

  predicate OffersCipher(p: Proposal, cipher: Cipher, integrity: Integrity) {
    && Offers(p, Codec.Encryption, cipher.Id(), cipher.KeyBits())
    && (cipher.IsAead() || Offers(p, Codec.Integrity, integrity.Id(), None))
  }

  predicate OffersIke(p: Proposal, choice: IkeAlgorithms, group: Option<Group>) {
    && (group.None? || choice.group == group.value)
    && OffersCipher(p, choice.cipher, choice.integrity)
    && Offers(p, Codec.PseudoRandom, choice.prf.Id(), None)
    && Offers(p, Codec.DiffieHellman, choice.group.Id(), None)
  }

  function FindIke(p: Proposal, ours: seq<IkeAlgorithms>, group: Option<Group>): Option<IkeAlgorithms> {
    if ours == [] then None
    else if OffersIke(p, ours[0], group) then Some(ours[0])
    else FindIke(p, ours[1..], group)
  }

  function SelectIke(p: Proposal, ours: seq<IkeAlgorithms>, group: Option<Group>): Result<IkeAlgorithms> {
    if p.protocol != Codec.Ike || p.foreign then Err(Malformed)
    else match FindIke(p, ours, group) case Some(choice) => Ok(choice) case None => Err(Malformed)
  }

  /** What a proposal makes of one of our ESP sets: its group is the one
      negotiated. */
  function MatchEsp(p: Proposal, choice: EspAlgorithms, group: Option<Group>): Option<EspAlgorithms> {
    if !OffersCipher(p, choice.cipher, choice.integrity) then None
    else if !Has(p, Codec.DiffieHellman) then Some(choice.(group := None))
    else if choice.group.None? || (group.Some? && group != choice.group) then None
    else if !Offers(p, Codec.DiffieHellman, choice.group.value.Id(), None) then None
    else Some(choice)
  }

  function FindEsp(p: Proposal, ours: seq<EspAlgorithms>, group: Option<Group>): Option<EspAlgorithms> {
    if ours == [] then None
    else if MatchEsp(p, ours[0], group).Some? then MatchEsp(p, ours[0], group)
    else FindEsp(p, ours[1..], group)
  }

  function SelectEsp(p: Proposal, ours: seq<EspAlgorithms>, group: Option<Group>): Result<(EspAlgorithms, u32)> {
    if p.protocol != Codec.Esp || p.foreign then Err(Malformed)
    else if |p.spi| != 4 then Err(Malformed)
    else if Has(p, Codec.Esn) && !Offers(p, Codec.Esn, 0, None) then Err(Malformed)
    else match FindEsp(p, ours, group) case Some(choice) => Ok((choice, FromBe32(p.spi))) case None => Err(Malformed)
  }

  /** The first acceptable proposal, with what is selected of it. */
  function FirstIke(ps: seq<Proposal>, ours: seq<IkeAlgorithms>, group: Option<Group>): Option<(Proposal, IkeAlgorithms)> {
    if ps == [] then None
    else if SelectIke(ps[0], ours, group).Ok? then Some((ps[0], SelectIke(ps[0], ours, group).value))
    else FirstIke(ps[1..], ours, group)
  }

  function FirstEsp(ps: seq<Proposal>, ours: seq<EspAlgorithms>, group: Option<Group>): Option<(Proposal, EspAlgorithms, u32)> {
    if ps == [] then None
    else if SelectEsp(ps[0], ours, group).Ok? then Some((ps[0], SelectEsp(ps[0], ours, group).value.0, SelectEsp(ps[0], ours, group).value.1))
    else FirstEsp(ps[1..], ours, group)
  }

  // ---- a proposal of one choice offers that choice only ------------------------------------------

  lemma SameCipher(a: Cipher, b: Cipher)
    requires a.Id() == b.Id() && (b.KeyBits().None? || a.KeyBits() == b.KeyBits())
    ensures a == b
  {
  }

  lemma IkeOffersKinds(choice: IkeAlgorithms, number: byte, spi: seq<byte>, id: u16, bits: Option<u16>)
    ensures var p := IkeProposal(choice, number, spi);
            && (Offers(p, Codec.Encryption, id, bits) <==> id == choice.cipher.Id() && (bits.None? || choice.cipher.KeyBits() == bits))
            && (Offers(p, Codec.PseudoRandom, id, None) <==> id == choice.prf.Id())
            && (Offers(p, Codec.Integrity, id, None) <==> !choice.cipher.IsAead() && id == choice.integrity.Id())
            && (Offers(p, Codec.DiffieHellman, id, None) <==> id == choice.group.Id())
  {
    var p := IkeProposal(choice, number, spi);
    var n := |p.transforms|;
    assert CipherTransform(choice.cipher) in p.transforms && Simple(Codec.PseudoRandom, choice.prf.Id()) in p.transforms;
    assert p.transforms[n - 1] == Simple(Codec.DiffieHellman, choice.group.Id());
    if !choice.cipher.IsAead() {
      assert p.transforms[2] == Simple(Codec.Integrity, choice.integrity.Id());
    }
  }

  lemma IkeOffersItself(a: IkeAlgorithms, number: byte, spi: seq<byte>, b: IkeAlgorithms, group: Option<Group>)
    requires a.WellFormed() && b.WellFormed()
    ensures OffersIke(IkeProposal(a, number, spi), b, group) <==> a == b && (group.None? || a.group == group.value)
  {
    IkeOffersKinds(a, number, spi, b.cipher.Id(), b.cipher.KeyBits());
    IkeOffersKinds(a, number, spi, b.prf.Id(), None);
    IkeOffersKinds(a, number, spi, b.integrity.Id(), None);
    IkeOffersKinds(a, number, spi, b.group.Id(), None);
    if OffersIke(IkeProposal(a, number, spi), b, group) {
      SameCipher(a.cipher, b.cipher);
    }
  }

  predicate AllIkeWellFormed(sets: seq<IkeAlgorithms>) {
    forall s :: s in sets ==> s.WellFormed()
  }

  lemma {:induction false} FindsItself(a: IkeAlgorithms, number: byte, spi: seq<byte>, ours: seq<IkeAlgorithms>, group: Option<Group>)
    requires a.WellFormed() && AllIkeWellFormed(ours)
    ensures FindIke(IkeProposal(a, number, spi), ours, group)
            == if a in ours && (group.None? || a.group == group.value) then Some(a) else None
  {
    if ours != [] {
      IkeOffersItself(a, number, spi, ours[0], group);
      FindsItself(a, number, spi, ours[1..], group);
      assert ours == [ours[0]] + ours[1..];
    }
  }

  /** A set of both ends, with this group. */
  predicate Common(choice: IkeAlgorithms, theirs: seq<IkeAlgorithms>, ours: seq<IkeAlgorithms>, group: Option<Group>) {
    choice in theirs && choice in ours && (group.None? || choice.group == group.value)
  }

  predicate NoneCommon(some: seq<IkeAlgorithms>, theirs: seq<IkeAlgorithms>, ours: seq<IkeAlgorithms>, group: Option<Group>) {
    forall i :: 0 <= i < |some| ==> !Common(some[i], theirs, ours, group)
  }

  lemma {:induction false} FirstOfOffers(theirs: seq<IkeAlgorithms>, from: nat, ours: seq<IkeAlgorithms>, group: Option<Group>)
    requires AllIkeWellFormed(theirs) && AllIkeWellFormed(ours) && |theirs| < 0x100 && from <= |theirs|
    ensures var first := FirstIke(IkeProposals(theirs)[from..], ours, group);
            && (first.None? <==> NoneCommon(theirs[from..], theirs, ours, group))
            && (first.Some? ==> Common(first.value.1, theirs, ours, group))
    decreases |theirs| - from
  {
    if from < |theirs| {
      var ps := IkeProposals(theirs)[from..];
      var some, rest := theirs[from..], theirs[from + 1..];
      assert theirs[from] in theirs;
      FindsItself(theirs[from], from + 1, [], ours, group);
      FirstOfOffers(theirs, from + 1, ours, group);
      assert ps[0] == IkeProposal(theirs[from], from + 1, []) && ps[1..] == IkeProposals(theirs)[from + 1..];
      assert SelectIke(ps[0], ours, group).Ok? <==> Common(some[0], theirs, ours, group);
      assert forall i :: 0 <= i < |rest| ==> rest[i] == some[i + 1];
      assert NoneCommon(some, theirs, ours, group) <==> !Common(some[0], theirs, ours, group) && NoneCommon(rest, theirs, ours, group) by {
        assert forall i :: 0 < i < |some| ==> some[i] == rest[i - 1];
      }
    }
  }

  /** The offers of the initiator, on the wire and back. */
  lemma IkeOffersSurvive(sets: seq<IkeAlgorithms>)
    requires |sets| < 0x100
    ensures (forall p :: p in IkeProposals(sets) ==> p.Fits() && !p.foreign)
    ensures Codec.Decode(Codec.Encode(IkeProposals(sets))) == Ok(IkeProposals(sets))
  {
    Codec.ProposalsComeBack(IkeProposals(sets));
  }

  /** Agreement on IKE algorithms, through the wire: the responder accepts one
      of the initiator's proposals if and only if both ends have a set in
      common, with the group of the KE payload; and the initiator then selects
      from the answer exactly the set the responder did. */
  lemma IkeAgreement(initiator: seq<IkeAlgorithms>, responder: seq<IkeAlgorithms>, group: Group, spi: seq<byte>)
    requires AllIkeWellFormed(initiator) && AllIkeWellFormed(responder) && |initiator| < 0x100 && |spi| < 0x100
    ensures (forall p :: p in IkeProposals(initiator) ==> p.Fits())
    ensures var received := Codec.Decode(Codec.Encode(IkeProposals(initiator)));
            && received.Ok?
            && var first := FirstIke(received.value, responder, Some(group));
               && (first.Some? <==> exists choice :: Common(choice, initiator, responder, Some(group)))
               && (first.Some? ==>
                     var answer := [IkeProposal(first.value.1, first.value.0.number, spi)];
                     && Common(first.value.1, initiator, responder, Some(group))
                     && (forall p :: p in answer ==> p.Fits())
                     && Codec.Decode(Codec.Encode(answer)) == Ok(answer)
                     && SelectIke(answer[0], initiator, Some(group)) == Ok(first.value.1))
  {
    IkeOffersSurvive(initiator);
    FirstOfOffers(initiator, 0, responder, Some(group));
    assert IkeProposals(initiator)[0..] == IkeProposals(initiator) && initiator[0..] == initiator;
    assert NoneCommon(initiator, initiator, responder, Some(group)) <==> !exists choice :: Common(choice, initiator, responder, Some(group));
    var first := FirstIke(IkeProposals(initiator), responder, Some(group));
    if first.Some? {
      Codec.ProposalsComeBack([IkeProposal(first.value.1, first.value.0.number, spi)]);
      FindsItself(first.value.1, first.value.0.number, spi, initiator, Some(group));
    }
  }

  // ---- the same for CHILD SAs ----------------------------------------------------------------

  lemma EspOffersKinds(choice: EspAlgorithms, number: byte, spi: u32, withGroups: bool, id: u16, bits: Option<u16>)
    ensures var p := EspProposal(choice, number, spi, withGroups);
            var group := if withGroups then choice.group else None;
            && (Offers(p, Codec.Encryption, id, bits) <==> id == choice.cipher.Id() && (bits.None? || choice.cipher.KeyBits() == bits))
            && (Offers(p, Codec.Integrity, id, None) <==> !choice.cipher.IsAead() && id == choice.integrity.Id())
            && (Offers(p, Codec.DiffieHellman, id, None) <==> group.Some? && id == group.value.Id())
            && (Has(p, Codec.DiffieHellman) <==> group.Some?)
            && Offers(p, Codec.Esn, 0, None)
  {
    var p := EspProposal(choice, number, spi, withGroups);
    var n := |p.transforms|;
    assert p.transforms[0] == CipherTransform(choice.cipher) && p.transforms[n - 1] == Simple(Codec.Esn, 0);
    if !choice.cipher.IsAead() {
      assert p.transforms[1] == Simple(Codec.Integrity, choice.integrity.Id());
    }
    if withGroups && choice.group.Some? {
      assert p.transforms[n - 2] == Simple(Codec.DiffieHellman, choice.group.value.Id());
    }
  }

  /** What one set offered makes of one set of ours: the cipher and integrity
      algorithm have to be the same, and the group too if one is offered. */
  function Agreed(theirs: EspAlgorithms, ours: EspAlgorithms, withGroups: bool, group: Option<Group>): Option<EspAlgorithms> {
    if theirs.cipher != ours.cipher || theirs.integrity != ours.integrity then None
    else if !withGroups || theirs.group.None? then Some(ours.(group := None))
    else if ours.group == theirs.group && (group.None? || group == theirs.group) then Some(theirs)
    else None
  }

  lemma EspCiphers(a: EspAlgorithms, number: byte, spi: u32, withGroups: bool, b: EspAlgorithms)
    requires a.WellFormed() && b.WellFormed()
    ensures OffersCipher(EspProposal(a, number, spi, withGroups), b.cipher, b.integrity) <==> a.cipher == b.cipher && a.integrity == b.integrity
  {
    EspOffersKinds(a, number, spi, withGroups, b.cipher.Id(), b.cipher.KeyBits());
    EspOffersKinds(a, number, spi, withGroups, b.integrity.Id(), None);
    if OffersCipher(EspProposal(a, number, spi, withGroups), b.cipher, b.integrity) {
      SameCipher(a.cipher, b.cipher);
    }
  }

  lemma EspMatches(a: EspAlgorithms, number: byte, spi: u32, withGroups: bool, b: EspAlgorithms, group: Option<Group>)
    requires a.WellFormed() && b.WellFormed()
    ensures MatchEsp(EspProposal(a, number, spi, withGroups), b, group) == Agreed(a, b, withGroups, group)
  {
    EspCiphers(a, number, spi, withGroups, b);
    EspOffersKinds(a, number, spi, withGroups, if b.group.Some? then b.group.value.Id() else 0, None);
  }

  predicate AllEspWellFormed(sets: seq<EspAlgorithms>) {
    forall s :: s in sets ==> s.WellFormed()
  }

  /** Some set of ours goes with the one offered. */
  predicate SomeAgrees(theirs: EspAlgorithms, ours: seq<EspAlgorithms>, withGroups: bool, group: Option<Group>) {
    exists i :: 0 <= i < |ours| && Agreed(theirs, ours[i], withGroups, group).Some?
  }

  /** The algorithms of the set offered, with its group if it is. */
  function Negotiated(theirs: EspAlgorithms, withGroups: bool): EspAlgorithms {
    theirs.(group := if withGroups then theirs.group else None)
  }

  lemma {:induction false} EspFinds(a: EspAlgorithms, number: byte, spi: u32, withGroups: bool, ours: seq<EspAlgorithms>, group: Option<Group>)
    requires a.WellFormed() && AllEspWellFormed(ours)
    ensures FindEsp(EspProposal(a, number, spi, withGroups), ours, group)
            == if SomeAgrees(a, ours, withGroups, group) then Some(Negotiated(a, withGroups)) else None
  {
    if ours != [] {
      var rest := ours[1..];
      EspMatches(a, number, spi, withGroups, ours[0], group);
      EspFinds(a, number, spi, withGroups, rest, group);
      assert forall i :: 0 <= i < |rest| ==> rest[i] == ours[i + 1];
      assert SomeAgrees(a, ours, withGroups, group) <==> Agreed(a, ours[0], withGroups, group).Some? || SomeAgrees(a, rest, withGroups, group) by {
        if SomeAgrees(a, ours, withGroups, group) && Agreed(a, ours[0], withGroups, group).None? {
          var i :| 0 <= i < |ours| && Agreed(a, ours[i], withGroups, group).Some?;
          assert rest[i - 1] == ours[i];
        }
      }
    }
  }

  lemma SpiComesBack(a: EspAlgorithms, number: byte, spi: u32, withGroups: bool, ours: seq<EspAlgorithms>, group: Option<Group>)
    requires a.WellFormed() && AllEspWellFormed(ours)
    ensures SelectEsp(EspProposal(a, number, spi, withGroups), ours, group)
            == if SomeAgrees(a, ours, withGroups, group) then Ok((Negotiated(a, withGroups), spi)) else Err(Malformed)
  {
    EspFinds(a, number, spi, withGroups, ours, group);
    EspOffersKinds(a, number, spi, withGroups, 0, None);
    Be32RoundTrip(spi);
  }

  /** One of these goes with one of ours. */
  predicate AnyAgrees(some: seq<EspAlgorithms>, ours: seq<EspAlgorithms>, withGroups: bool, group: Option<Group>) {
    exists i :: 0 <= i < |some| && SomeAgrees(some[i], ours, withGroups, group)
  }

  /** What is selected: the first offered set that goes with one of ours. */
  predicate FirstAgreed(theirs: seq<EspAlgorithms>, ours: seq<EspAlgorithms>, withGroups: bool, group: Option<Group>, result: EspAlgorithms) {
    exists i :: 0 <= i < |theirs| && result == Negotiated(theirs[i], withGroups) && SomeAgrees(theirs[i], ours, withGroups, group)
  }

  lemma {:induction false} FirstOfEspOffers(theirs: seq<EspAlgorithms>, from: nat, spi: u32, withGroups: bool,
                                            ours: seq<EspAlgorithms>, group: Option<Group>)
    requires AllEspWellFormed(theirs) && AllEspWellFormed(ours) && |theirs| < 0x100 && from <= |theirs|
    ensures var first := FirstEsp(EspProposals(theirs, spi, withGroups)[from..], ours, group);
            && (first.Some? <==> AnyAgrees(theirs[from..], ours, withGroups, group))
            && (first.Some? ==> first.value.2 == spi && FirstAgreed(theirs, ours, withGroups, group, first.value.1))
    decreases |theirs| - from
  {
    if from < |theirs| {
      var ps := EspProposals(theirs, spi, withGroups)[from..];
      var some, rest := theirs[from..], theirs[from + 1..];
      assert theirs[from] in theirs;
      SpiComesBack(theirs[from], from + 1, spi, withGroups, ours, group);
      FirstOfEspOffers(theirs, from + 1, spi, withGroups, ours, group);
      assert ps[0] == EspProposal(theirs[from], from + 1, spi, withGroups) && ps[1..] == EspProposals(theirs, spi, withGroups)[from + 1..];
      assert forall i :: 0 <= i < |rest| ==> rest[i] == some[i + 1];
      assert AnyAgrees(some, ours, withGroups, group) <==> SomeAgrees(some[0], ours, withGroups, group) || AnyAgrees(rest, ours, withGroups, group) by {
        if AnyAgrees(some, ours, withGroups, group) && !SomeAgrees(some[0], ours, withGroups, group) {
          var i :| 0 <= i < |some| && SomeAgrees(some[i], ours, withGroups, group);
          assert rest[i - 1] == some[i];
        }
      }
    }
  }

  lemma EspOffersSurvive(sets: seq<EspAlgorithms>, spi: u32, withGroups: bool)
    requires |sets| < 0x100
    ensures (forall p :: p in EspProposals(sets, spi, withGroups) ==> p.Fits() && !p.foreign)
    ensures Codec.Decode(Codec.Encode(EspProposals(sets, spi, withGroups))) == Ok(EspProposals(sets, spi, withGroups))
  {
    Codec.ProposalsComeBack(EspProposals(sets, spi, withGroups));
  }

  /** The initiator finds the negotiated algorithms among its own sets. */
  lemma InitiatorAgrees(initiator: seq<EspAlgorithms>, responder: seq<EspAlgorithms>, withGroups: bool, group: Option<Group>, result: EspAlgorithms)
    requires FirstAgreed(initiator, responder, withGroups, group, result) && AllEspWellFormed(initiator)
    ensures SomeAgrees(result, initiator, true, result.group) && result.WellFormed()
  {
    var i :| 0 <= i < |initiator| && result == Negotiated(initiator[i], withGroups) && SomeAgrees(initiator[i], responder, withGroups, group);
    assert initiator[i] in initiator;
    assert Agreed(result, initiator[i], true, result.group).Some?;
  }

  lemma EspAnswered(chosen: EspAlgorithms, number: byte, spi: u32, initiator: seq<EspAlgorithms>)
    requires chosen.WellFormed() && AllEspWellFormed(initiator) && SomeAgrees(chosen, initiator, true, chosen.group)
    ensures var answer := [EspProposal(chosen, number, spi, true)];
            && (forall p :: p in answer ==> p.Fits())
            && Codec.Decode(Codec.Encode(answer)) == Ok(answer)
            && SelectEsp(answer[0], initiator, chosen.group) == Ok((chosen, spi))
  {
    SpiComesBack(chosen, number, spi, true, initiator, chosen.group);
    Codec.ProposalsComeBack([EspProposal(chosen, number, spi, true)]);
  }

  /** Agreement on ESP algorithms, through the wire: the responder accepts one
      of the initiator's proposals if and only if a set of each go together;
      and from the answer the initiator selects exactly what the responder
      did, the group and the responder's SPI included. */
  lemma EspAgreement(initiator: seq<EspAlgorithms>, responder: seq<EspAlgorithms>, withGroups: bool, group: Option<Group>,
                     theirSpi: u32, ourSpi: u32)
    requires AllEspWellFormed(initiator) && AllEspWellFormed(responder) && |initiator| < 0x100
    ensures (forall p :: p in EspProposals(initiator, theirSpi, withGroups) ==> p.Fits())
    ensures var received := Codec.Decode(Codec.Encode(EspProposals(initiator, theirSpi, withGroups)));
            && received.Ok?
            && var first := FirstEsp(received.value, responder, group);
               && (first.Some? <==> AnyAgrees(initiator, responder, withGroups, group))
               && (first.Some? ==>
                     var chosen := first.value.1;
                     var answer := [EspProposal(chosen, first.value.0.number, ourSpi, true)];
                     && first.value.2 == theirSpi && FirstAgreed(initiator, responder, withGroups, group, chosen)
                     && Codec.Decode(Codec.Encode(answer)) == Ok(answer)
                     && SelectEsp(answer[0], initiator, chosen.group) == Ok((chosen, ourSpi)))
  {
    EspOffersSurvive(initiator, theirSpi, withGroups);
    FirstOfEspOffers(initiator, 0, theirSpi, withGroups, responder, group);
    assert EspProposals(initiator, theirSpi, withGroups)[0..] == EspProposals(initiator, theirSpi, withGroups);
    assert initiator[0..] == initiator;
    var first := FirstEsp(EspProposals(initiator, theirSpi, withGroups), responder, group);
    if first.Some? {
      InitiatorAgrees(initiator, responder, withGroups, group, first.value.1);
      EspAnswered(first.value.1, first.value.0.number, ourSpi, initiator);
    }
  }
}
