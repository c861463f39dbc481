/** What an INFORMATIONAL request does to the SAs of an end (RFC 7296 section
    1.4.1), read off the bytes of its payloads; and the rekeyed SA that takes
    over. */
module SessionDeletes {
  import opened Bytes
  import opened Payloads
  import opened Messages
  import opened Reassembly
  import opened Session

  // ---- the bytes of a DELETE ------------------------------------------------------

  /** Protocol, SPI size and number of SPIs, and then all of them. */
  predicate IsDelete(p: RawPayload) {
    p.kind == 42 && |p.data| >= 4 && p.data[1] * FromBe16(p.data[2..4]) <= |p.data| - 4
  }

  predicate DeletesIke(p: RawPayload) { IsDelete(p) && p.data[0] == 1 }

  predicate DeletesChildren(p: RawPayload) { IsDelete(p) && p.data[0] != 1 }

  /** The `k`-th SPI; one that does not have 4 bytes is read as 0. */
  function SpiAt(data: bytes, k: nat): u32
    requires |data| >= 4 && k < FromBe16(data[2..4]) && data[1] * FromBe16(data[2..4]) <= |data| - 4
  {
    if data[1] == 4 then FromBe32(data[4 + 4 * k..8 + 4 * k]) else 0
  }

  function SpisOf(p: RawPayload): seq<u32>
    requires IsDelete(p)
  {
    seq(FromBe16(p.data[2..4]), k requires 0 <= k < FromBe16(p.data[2..4]) => SpiAt(p.data, k))
  }

  /** The SPIs that the payloads name, of CHILD SAs. */
  function Named(payloads: seq<RawPayload>): seq<u32> {
    if payloads == [] then []
    else
      var before, p := Named(payloads[..|payloads| - 1]), payloads[|payloads| - 1];
      if DeletesChildren(p) then before + SpisOf(p) else before
  }

  // ---- the CHILD SAs left ------------------------------------------------------------

  /** Of the CHILD SAs that send to a named SPI as many go as it is named,
      the first ones; all others stay, in order. */
  function Kept(children: seq<Child>, named: multiset<u32>): seq<Child> {
    if children == [] then []
    else if children[0].spiOut in named then Kept(children[1..], named - multiset{children[0].spiOut})
    else [children[0]] + Kept(children[1..], named)
  }

  /** And these are the SPIs of ours of those that go. */
  function Gone(children: seq<Child>, named: multiset<u32>): multiset<u32> {
    if children == [] then multiset{}
    else if children[0].spiOut in named
      then multiset{children[0].spiIn} + Gone(children[1..], named - multiset{children[0].spiOut})
    else Gone(children[1..], named)
  }

  lemma {:induction false} NothingNamed(children: seq<Child>)
    ensures Kept(children, multiset{}) == children && Gone(children, multiset{}) == multiset{}
  {
    if children != [] {
      NothingNamed(children[1..]);
    }
  }

  ghost predicate TakesOneMore(children: seq<Child>, named: multiset<u32>, spi: u32) {
    var (after, ours) := RemoveChild(Kept(children, named), spi);
    && Kept(children, named + multiset{spi}) == after
    && Gone(children, named + multiset{spi}) == Gone(children, named) + multiset(ours)
  }

  lemma NamedFirst(children: seq<Child>, named: multiset<u32>, spi: u32)
    requires children != [] && children[0].spiOut in named
    requires TakesOneMore(children[1..], named - multiset{children[0].spiOut}, spi)
    ensures TakesOneMore(children, named, spi)
  {
    var out := children[0].spiOut;
    assert named + multiset{spi} - multiset{out} == named - multiset{out} + multiset{spi};
  }

  lemma NotNamedFirst(children: seq<Child>, named: multiset<u32>, spi: u32)
    requires children != [] && children[0].spiOut !in named && children[0].spiOut != spi
    requires TakesOneMore(children[1..], named, spi)
    ensures TakesOneMore(children, named, spi)
  {
    var kept := Kept(children[1..], named);
    assert ([children[0]] + kept)[1..] == kept;
  }

  /** One more SPI named takes one more CHILD SA, the first left with it. */
  lemma {:induction false} KeptMore(children: seq<Child>, named: multiset<u32>, spi: u32)
    ensures TakesOneMore(children, named, spi)
  {
    if children != [] {
      var c := children[0];
      if c.spiOut in named {
        KeptMore(children[1..], named - multiset{c.spiOut}, spi);
        NamedFirst(children, named, spi);
      } else if c.spiOut == spi {
        assert named + multiset{spi} - multiset{c.spiOut} == named;
      } else {
        KeptMore(children[1..], named, spi);
        NotNamedFirst(children, named, spi);
      }
    }
  }

  // ---- what is decoded ---------------------------------------------------------------

  lemma {:induction false} TakesAll(data: bytes, size: nat, count: nat)
    ensures TakeSpis(data, size, count).Ok? <==> size * count <= |data|
    ensures TakeSpis(data, size, count).Ok? ==> |TakeSpis(data, size, count).value| == count
  {
    if count > 0 {
      assert size * count == size * (count - 1) + size;
      assert size * (count - 1) >= 0;
      if |data| >= size {
        TakesAll(data[size..], size, count - 1);
      }
    }
  }

  lemma {:induction false} TakesFours(data: bytes, count: nat, k: nat)
    requires TakeSpis(data, 4, count).Ok? && k < count && 4 * count <= |data|
    ensures |TakeSpis(data, 4, count).value| == count && TakeSpis(data, 4, count).value[k] == data[4 * k..4 * k + 4]
  {
    TakesAll(data, 4, count);
    if k > 0 {
      TakesFours(data[4..], count - 1, k - 1);
      assert data[4..][4 * (k - 1)..4 * (k - 1) + 4] == data[4 * k..4 * k + 4];
    }
  }

  lemma {:induction false} TakesSizes(data: bytes, size: nat, count: nat, k: nat)
    requires TakeSpis(data, size, count).Ok? && k < |TakeSpis(data, size, count).value|
    ensures |TakeSpis(data, size, count).value[k]| == size
  {
    if count > 0 && k > 0 {
      TakesSizes(data[size..], size, count - 1, k - 1);
    }
  }

  function Values(spis: seq<bytes>): seq<u32> {
    seq(|spis|, k requires 0 <= k < |spis| => SpiValue(spis[k]))
  }

  lemma ValueIs(data: bytes, k: nat)
    requires |data| >= 4 && k < FromBe16(data[2..4]) && data[1] * FromBe16(data[2..4]) <= |data| - 4
    ensures var r := TakeSpis(data[4..], data[1], FromBe16(data[2..4]));
            r.Ok? && k < |r.value| && SpiValue(r.value[k]) == SpiAt(data, k)
  {
    var size, count := data[1], FromBe16(data[2..4]);
    TakesAll(data[4..], size, count);
    TakesSizes(data[4..], size, count, k);
    if size == 4 {
      TakesFours(data[4..], count, k);
      assert data[4..][4 * k..4 * k + 4] == data[4 + 4 * k..8 + 4 * k];
    }
  }

  /** A DELETE decodes to what it says, and nothing else decodes. */
  lemma DecodedIs(p: RawPayload)
    requires p.kind == DELETE
    ensures DecodeDelete(p.data).Ok? <==> IsDelete(p)
    ensures IsDelete(p) ==>
              var d := DecodeDelete(p.data).value; d.protocol == p.data[0] && Values(d.spis) == SpisOf(p)
  {
    if |p.data| >= 4 {
      var size, count := p.data[1], FromBe16(p.data[2..4]);
      TakesAll(p.data[4..], size, count);
      if IsDelete(p) {
        var spis := TakeSpis(p.data[4..], size, count).value;
        forall k | 0 <= k < count ensures SpiValue(spis[k]) == SpiAt(p.data, k) {
          ValueIs(p.data, k);
        }
      }
    }
  }

  lemma {:induction false} RemovesNamed(children: seq<Child>, named: multiset<u32>, spis: seq<bytes>)
    ensures var (after, ours) := RemoveChildren(Kept(children, named), spis);
            && after == Kept(children, named + multiset(Values(spis)))
            && Gone(children, named + multiset(Values(spis))) == Gone(children, named) + multiset(ours)
  {
    if spis == [] {
      assert named + multiset(Values(spis)) == named;
    } else {
      var n := |spis| - 1;
      RemovesNamed(children, named, spis[..n]);
      KeptMore(children, named + multiset(Values(spis[..n])), SpiValue(spis[n]));
      assert Values(spis) == Values(spis[..n]) + [SpiValue(spis[n])];
      assert named + multiset(Values(spis)) == named + multiset(Values(spis[..n])) + multiset{SpiValue(spis[n])};
    }
  }

  // ---- the answer ------------------------------------------------------------------

  lemma {:induction false} EncodedAt(spis: seq<u32>, k: nat)
    requires k < |spis|
    ensures |EncodeSpis(spis)| == 4 * |spis| && EncodeSpis(spis)[4 * k..4 * k + 4] == Be32(spis[k])
  {
    var n := |spis| - 1;
    if n > 0 {
      EncodedAt(spis[..n], if k < n then k else 0);
    }
    if k < n {
      assert EncodeSpis(spis)[4 * k..4 * k + 4] == EncodeSpis(spis[..n])[4 * k..4 * k + 4];
    }
  }

  /** A DELETE of CHILD SAs with at least one SPI, of 4 bytes, and no more. */
  predicate IsPlainDelete(p: RawPayload) {
    && DeletesChildren(p) && p.data[0] == 3 && p.data[1] == 4
    && |p.data| == 4 + 4 * FromBe16(p.data[2..4]) && FromBe16(p.data[2..4]) > 0
  }

  /** What is encoded reads as it should. */
  lemma EncodedIs(spis: seq<u32>)
    requires 0 < |spis| < 0x1_0000
    ensures IsPlainDelete(EncodeDelete(spis)) && SpisOf(EncodeDelete(spis)) == spis
  {
    var p := EncodeDelete(spis);
    EncodedAt(spis, 0);
    assert p.data[2..4] == Be16(|spis|) && FromBe16(Be16(|spis|)) == |spis|;
    forall k | 0 <= k < |spis| ensures SpiAt(p.data, k) == spis[k] {
      EncodedAt(spis, k);
      assert p.data[4 + 4 * k..8 + 4 * k] == EncodeSpis(spis)[4 * k..4 * k + 4];
      Be32RoundTrip(spis[k]);
    }
  }

  // ---- all payloads of a request ---------------------------------------------------

  ghost predicate HasIkeDelete(payloads: seq<RawPayload>) { exists p :: p in payloads && DeletesIke(p) }

  ghost predicate HasChildDelete(payloads: seq<RawPayload>) { exists p :: p in payloads && DeletesChildren(p) }

  /** The SA ends: by a DELETE of it, or with the last CHILD SA while up. */
  ghost predicate Ends(children: seq<Child>, isUp: bool, payloads: seq<RawPayload>) {
    || HasIkeDelete(payloads)
    || (isUp && HasChildDelete(payloads) && Kept(children, multiset(Named(payloads))) == [])
  }

  /** The answer names the SPIs of ours that are gone, each once. */
  ghost predicate NamesGone(answer: seq<RawPayload>, gone: multiset<u32>) {
    multiset(Named(answer)) == gone && forall p :: p in answer ==> IsPlainDelete(p)
  }

  ghost predicate InformedIs(children: seq<Child>, isUp: bool, payloads: seq<RawPayload>, i: Informed) {
    var named := multiset(Named(payloads));
    && i.children == Kept(children, named)
    && (i.ended <==> Ends(children, isUp, payloads))
    && (|children| < 0x1_0000 ==> NamesGone(i.answer, Gone(children, named)))
  }

  lemma {:induction false} GoneFits(children: seq<Child>, named: multiset<u32>)
    ensures |Gone(children, named)| <= |children|
  {
    if children != [] {
      if children[0].spiOut in named {
        GoneFits(children[1..], named - multiset{children[0].spiOut});
      } else {
        GoneFits(children[1..], named);
      }
    }
  }

  lemma NamesMore(answer: seq<RawPayload>, gone: multiset<u32>, ours: seq<u32>)
    requires NamesGone(answer, gone) && 0 < |ours| < 0x1_0000
    ensures NamesGone(answer + [EncodeDelete(ours)], gone + multiset(ours))
  {
    EncodedIs(ours);
    var more := answer + [EncodeDelete(ours)];
    assert more[..|more| - 1] == answer;
    assert Named(more) == Named(answer) + ours;
  }

  lemma {:induction false} StaysEmpty(spis: seq<bytes>)
    ensures RemoveChildren([], spis) == ([], [])
  {
    if spis != [] {
      var n := |spis| - 1;
      StaysEmpty(spis[..n]);
      assert RemoveChild([], SpiValue(spis[n])) == ([], []);
      var none: seq<u32> := [];
      assert none + none == none;
    }
  }

  /** One more payload that removes CHILD SAs. */
  lemma ChildDeleteInforms(children: seq<Child>, isUp: bool, before: seq<RawPayload>, p: RawPayload, i: Informed)
    requires InformedIs(children, isUp, before, i) && DeletesChildren(p)
    ensures InformedIs(children, isUp, before + [p], InformOne(i, isUp, p))
  {
    DecodedIs(p);
    var named, all := multiset(Named(before)), before + [p];
    var spis := DecodeDelete(p.data).value.spis;
    RemovesNamed(children, named, spis);
    var (after, ours) := RemoveChildren(i.children, spis);
    assert all[..|all| - 1] == before;
    assert Named(all) == Named(before) + SpisOf(p);
    assert multiset(Named(all)) == named + multiset(SpisOf(p));
    GoneFits(children, multiset(Named(all)));
    assert |multiset(ours)| == |ours|;
    if ours != [] && |children| < 0x1_0000 {
      NamesMore(i.answer, Gone(children, named), ours);
    }
    if i.children == [] {
      StaysEmpty(spis);
    }
    assert p in all && forall q :: q in before ==> q in all;
  }

  lemma DeletesOf(before: seq<RawPayload>, p: RawPayload)
    ensures HasIkeDelete(before + [p]) <==> HasIkeDelete(before) || DeletesIke(p)
    ensures HasChildDelete(before + [p]) <==> HasChildDelete(before) || DeletesChildren(p)
  {
    var all := before + [p];
    assert p in all && forall q :: q in all <==> q in before || q == p;
  }

  lemma PassesOver(children: seq<Child>, isUp: bool, before: seq<RawPayload>, p: RawPayload, i: Informed)
    requires InformedIs(children, isUp, before, i) && !DeletesChildren(p)
    ensures InformedIs(children, isUp, before + [p], InformOne(i, isUp, p))
  {
    var all := before + [p];
    assert InformOne(i, isUp, p) == if DeletesIke(p) then i.(ended := true) else i by {
      if p.kind == DELETE {
        DecodedIs(p);
      }
    }
    assert all[..|all| - 1] == before && Named(all) == Named(before);
    DeletesOf(before, p);
  }

  /** What the payloads do, read off their bytes. */
  lemma {:induction false} InformReads(children: seq<Child>, isUp: bool, payloads: seq<RawPayload>)
    ensures InformedIs(children, isUp, payloads, Inform(children, isUp, payloads))
  {
    if payloads == [] {
      NothingNamed(children);
      assert multiset(Named([])) == multiset{};
    } else {
      var before, p := payloads[..|payloads| - 1], payloads[|payloads| - 1];
      InformReads(children, isUp, before);
      assert payloads == before + [p];
      if DeletesChildren(p) {
        ChildDeleteInforms(children, isUp, before, p, Inform(children, isUp, before));
      } else {
        PassesOver(children, isUp, before, p, Inform(children, isUp, before));
      }
    }
  }

  // ---- what becomes of the SA --------------------------------------------------------

  /** The rekeyed SA has taken over, with all counters at 0. */
  predicate TookOver(e: Endpoint, next: NextIke, e': Endpoint) {
    && !e'.initiator && (e'.spiI, e'.spiR) == (next.spiI, next.spiR) && e'.keys == Some(next.keys)
    && e'.messageId == 0 == e'.peerMessageId && e'.lastResponse.None? && e'.pieces == EMPTY && e'.nextIke.None?
    && e'.down == e.down && e'.isUp == e.isUp && e'.peerFragments == e.peerFragments && e'.waiting == e.waiting
  }

  /** The answer to an INFORMATIONAL request, and what the end is after it. */
  ghost predicate Deletes(e: Endpoint, request: PeerRequest, o: Outcome) {
    var named := multiset(Named(request.payloads));
    var ends := Ends(e.children, e.isUp, request.payloads);
    && o.e.children == Kept(e.children, named)
    && (o.answered.Some? ==>
          && o.answered.value.exchange.Informational? && o.answered.value.isResponse && o.answered.value.id == request.head.id
          && (|e.children| < 0x1_0000 ==> NamesGone(o.answered.value.payloads, Gone(e.children, named)))
          && (ends && e.nextIke.Some? ==> TookOver(e, e.nextIke.value, o.e))
          && (ends && e.nextIke.None? ==> o.e == e.(children := o.e.children, lastResponse := o.e.lastResponse, down := true)))
    && (o.answered.None? || !ends ==> o.e == e.(children := o.e.children, lastResponse := o.e.lastResponse))
  }

  lemma ConcludeDoes(e: Endpoint, request: PeerRequest, i: Informed, answer: Message, o: Outcome)
    requires InformedIs(e.children, e.isUp, request.payloads, i)
    requires answer == NewResponse(e, Informational, request.head.id, i.answer)
    requires o == Answer(e.(children := i.children), request, answer)
    ensures Deletes(e, request, if o.answered.None? then o else o.(e := Conclude(o.e, i.ended)))
  {
  }

  /** Executed, an INFORMATIONAL request removes the CHILD SAs its DELETEs
      name and no others, and answers with their SPIs; a DELETE of the IKE SA,
      or of the last CHILD SA while up, ends the SA: the rekeyed one takes
      over if there is one, else the end is down. Nothing else changes. */
  lemma DeleteDoes(e: Endpoint, request: PeerRequest, decision: Decision)
    requires request.head.exchange.Informational?
    ensures Deletes(e, request, Execute(e, request, decision))
  {
    InformReads(e.children, e.isUp, request.payloads);
    var i := Inform(e.children, e.isUp, request.payloads);
    var answer := NewResponse(e, Informational, request.head.id, i.answer);
    ConcludeDoes(e, request, i, answer, Answer(e.(children := i.children), request, answer));
  }

  lemma HandleServes(e: Endpoint, d: Datagram, decision: Decision)
    requires HandlePacket(e, d, decision).executed.Some?
    ensures HandlePacket(e, d, decision) == Serve(OpenRequest(e, d), decision)
  {
  }

  lemma ArriveServes(e: Endpoint, d: Datagram, decision: Decision)
    requires Arrive(e, d, decision).executed.Some?
    ensures var o := Serve(OpenRequest(e, d), decision); Arrive(e, d, decision) == o.(e := Settled(o.e))
  {
    if !d.head.isResponse {
      HandleServes(e, d, decision);
    }
  }

  lemma ServeExecutes(unsealed: (Endpoint, Result<Option<PeerRequest>>), decision: Decision)
    requires Serve(unsealed, decision).executed.Some?
    ensures unsealed.1.Ok? && unsealed.1.value.Some?
    ensures Serve(unsealed, decision).executed == Some(unsealed.1.value.value)
    ensures Serve(unsealed, decision)
            == Execute(unsealed.0.(peerMessageId := WrappingAdd(unsealed.0.peerMessageId)), unsealed.1.value.value, decision)
  {
  }

  lemma ArriveExecutes(e: Endpoint, d: Datagram, decision: Decision) returns (e1: Endpoint)
    requires Arrive(e, d, decision).executed.Some?
    ensures e1 == e.(pieces := e1.pieces, peerMessageId := WrappingAdd(e.peerMessageId))
    ensures var o := Arrive(e, d, decision); var o2 := Execute(e1, o.executed.value, decision);
            o == o2.(e := Settled(o2.e))
  {
    var unsealed := OpenRequest(e, d);
    e1 := unsealed.0.(peerMessageId := WrappingAdd(unsealed.0.peerMessageId));
    ArriveServes(e, d, decision);
    ServeExecutes(unsealed, decision);
  }

  /** So does the datagram with which such a request arrives. */
  lemma ArrivingDeleteDoes(e: Endpoint, d: Datagram, decision: Decision) returns (e1: Endpoint, e2: Endpoint)
    requires Arrive(e, d, decision).executed.Some? && Arrive(e, d, decision).executed.value.head.exchange.Informational?
    ensures e1 == e.(pieces := e1.pieces, peerMessageId := WrappingAdd(e.peerMessageId))
    ensures var o := Arrive(e, d, decision); Deletes(e1, o.executed.value, o.(e := e2)) && o.e == Settled(e2)
  {
    e1 := ArriveExecutes(e, d, decision);
    var request := Arrive(e, d, decision).executed.value;
    e2 := Execute(e1, request, decision).e;
    DeleteDoes(e1, request, decision);
  }

  /** A rekeyed SA waits until its answer is sent, and takes over with the
      DELETE of the old one. */
  lemma RekeyTakesOver(e: Endpoint, rekey: PeerRequest, decision: Decision, delete: PeerRequest, decision': Decision)
    requires rekey.head.exchange.CreateChildSa? && decision.RekeyIke?
    requires Encode(e, NewResponse(e, CreateChildSa, rekey.head.id, decision.answer)).Ok?
    requires delete.head.exchange.Informational? && HasIkeDelete(delete.payloads)
    ensures var first := Execute(e, rekey, decision);
            && first.answered == Some(NewResponse(e, CreateChildSa, rekey.head.id, decision.answer))
            && first.e == e.(lastResponse := first.e.lastResponse, nextIke := Some(decision.next))
            && var second := Execute(first.e, delete, decision');
               second.answered.Some? ==> TookOver(e, decision.next, second.e)
  {
    DeleteDoes(Execute(e, rekey, decision).e, delete, decision');
  }
}
