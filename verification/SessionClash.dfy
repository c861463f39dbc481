/** Why `SessionSafety` keeps a request and an answer of one id apart: cut in
    as many pieces, they are put together as one message. */
module SessionClash {
  import opened Bytes
  import opened Payloads
  import opened Messages
  import opened Reassembly
  import opened Session
  import opened SessionSafety
  import opened SessionDelivery
  import opened SessionExchange

  /** Two messages of one payload each, alike but for their data. */
  predicate Alike(q: Message, m: Message) {
    && |q.payloads| == |m.payloads| == 1
    && q.payloads[0].kind == m.payloads[0].kind != NO_NEXT
    && |q.payloads[0].data| == |m.payloads[0].data|
  }

  /** The size of a piece, less the header of the first payload. */
  function FirstPiece(key: Keys): int {
    FRAGMENT_LEN - Overhead(key) - 4
  }

  lemma OneInChain(m: Message)
    requires |m.payloads| == 1 && EncodeChain(m.payloads).Ok?
    ensures |m.payloads[0].data| + 4 < 0x1_0000 && EncodeChain(m.payloads).value == EncodePayload(NO_NEXT, m.payloads[0].data)
  {
    assert m.payloads[1..] == [];
  }

  lemma {:induction false} SameNumber(a: bytes, b: bytes, n: nat)
    requires n > 0 && |a| == |b|
    ensures |Chunks(a, n)| == |Chunks(b, n)|
    decreases |a|
  {
    if |a| > n {
      SameNumber(a[n..], b[n..], n);
    }
  }

  lemma SameSplit(q: Message, m: Message, key: Keys, request: seq<Datagram>, answer: seq<Datagram>)
    requires Alike(q, m) && IsSplit(q, key, request) && IsSplit(m, key, answer)
    ensures |answer| == |request| > 0
  {
    OneInChain(q);
    OneInChain(m);
    assert |request| == |CutOf(q, key, FRAGMENT_LEN).chunks| && |answer| == |CutOf(m, key, FRAGMENT_LEN).chunks|;
    SameNumber(EncodeChain(q.payloads).value, EncodeChain(m.payloads).value, FRAGMENT_LEN - Overhead(key));
  }

  lemma MixedJoins(a: bytes, b: bytes, n: nat)
    requires n > 0 && |a| == |b| > n
    ensures |Chunks(a, n)| > 0 && |Chunks(b, n)| > 0
    ensures Join([Chunks(a, n)[0]] + Chunks(b, n)[1..]) == a[..n] + b[n..]
  {
    assert Chunks(b, n)[1..] == Chunks(b[n..], n);
    ChunksJoin(b[n..], n);
    JoinFront(a[..n], Chunks(b[n..], n));
  }

  lemma MixedData(x: bytes, y: bytes, n: nat)
    requires |x| == |y| > n && |x| + 4 < 0x1_0000
    ensures EncodePayload(NO_NEXT, x)[..n + 4] + EncodePayload(NO_NEXT, y)[n + 4..] == EncodePayload(NO_NEXT, x[..n] + y[n..])
  {
    assert EncodePayload(NO_NEXT, x)[..n + 4] == [NO_NEXT, 0] + Be16(|x| + 4) + x[..n];
    assert EncodePayload(NO_NEXT, y)[n + 4..] == y[n..];
  }

  lemma OneParses(kind: byte, data: bytes)
    requires kind != NO_NEXT && |data| + 4 < 0x1_0000
    ensures ParseChain(kind, EncodePayload(NO_NEXT, data)) == Ok([RawPayload(kind, data)])
  {
    var one := [RawPayload(kind, data)];
    assert one[1..] == [];
    assert EncodePayload(NO_NEXT, data) + [] == EncodePayload(NO_NEXT, data);
    ChainComesBack(one);
  }

  lemma MixedParses(q: Message, m: Message, key: Keys)
    requires Alike(q, m) && EncodeChain(q.payloads).Ok? && EncodeChain(m.payloads).Ok?
    requires 0 <= FirstPiece(key) < |q.payloads[0].data|
    requires CutOf(q, key, FRAGMENT_LEN).Valid() && CutOf(m, key, FRAGMENT_LEN).Valid()
    requires |CutOf(q, key, FRAGMENT_LEN).chunks| == |CutOf(m, key, FRAGMENT_LEN).chunks|
    ensures var n := FirstPiece(key);
            Whole(Mixed(CutOf(q, key, FRAGMENT_LEN), CutOf(m, key, FRAGMENT_LEN)).Whole())
            == Ok(Some([RawPayload(q.payloads[0].kind, q.payloads[0].data[..n] + m.payloads[0].data[n..])]))
  {
    var n := FirstPiece(key);
    var x, y := q.payloads[0].data, m.payloads[0].data;
    OneInChain(q);
    OneInChain(m);
    MixedJoins(EncodePayload(NO_NEXT, x), EncodePayload(NO_NEXT, y), n + 4);
    MixedData(x, y, n);
    OneParses(q.payloads[0].kind, x[..n] + y[n..]);
  }

  function MixedOf(a: Message, b: Message, at: nat): seq<RawPayload>
    requires Alike(a, b) && at < |a.payloads[0].data|
  {
    [RawPayload(b.payloads[0].kind, a.payloads[0].data[..at] + b.payloads[0].data[at..])]
  }

  lemma MixedIsOwn(x: bytes, y: bytes, at: nat)
    requires at < |x| == |y|
    ensures x[..at] + y[at..] == y <==> x[..at] == y[..at]
  {
    assert y == y[..at] + y[at..];
    assert (x[..at] + y[at..])[..at] == x[..at];
  }

  /** Over an end's own steps: given the first fragment of `a` and the others
      of `b`, one a request and one an answer of one id, split in as many
      pieces, it takes what they are together for `b`, unless that does not
      parse. */
  lemma ClashIsTaken(n: Node, a: Message, b: Message, first: seq<Datagram>, others: seq<Datagram>, decision: Decision)
    returns (trace: seq<Node>)
    requires Ready(n.e) && Expected(n.e, a, b) && |first| == |others|
    requires IsSplit(a, n.e.keys.value.inbound, first) && IsSplit(b, n.e.keys.value.inbound, others)
    ensures |others| > 1 && Gets(trace, Mix(first, others), decision) && trace[0] == n && Gathers(trace, n)
    ensures var x, y := CutOf(a, n.e.keys.value.inbound, FRAGMENT_LEN), CutOf(b, n.e.keys.value.inbound, FRAGMENT_LEN);
            && |x.chunks| == |y.chunks|
            && var whole := Whole(Mixed(x, y).Whole());
               if whole.Ok? then Took(n, b, whole.value.value, trace[|others|]) else TookNothing(n, trace[|others|])
  {
    var key := n.e.keys.value.inbound;
    var x, y := CutOf(a, key, FRAGMENT_LEN), CutOf(b, key, FRAGMENT_LEN);
    SplitSends(n.e, a, first);
    SplitSends(n.e, b, others);
    trace := MixIsTaken(n, a, b, first, others, x, y, decision);
  }

  /** Of messages of one payload, alike but for their data, it takes the
      beginning of the data of `a` and the end of that of `b`: that is `b` if
      and only if the data begin alike. */
  lemma ClashMixesData(n: Node, a: Message, b: Message, first: seq<Datagram>, others: seq<Datagram>, decision: Decision)
    returns (trace: seq<Node>)
    requires Ready(n.e) && Expected(n.e, a, b) && Alike(a, b)
    requires IsSplit(a, n.e.keys.value.inbound, first) && IsSplit(b, n.e.keys.value.inbound, others)
    requires 0 <= FirstPiece(n.e.keys.value.inbound) < |a.payloads[0].data|
    ensures |others| == |first| > 1 && Gets(trace, Mix(first, others), decision) && trace[0] == n && Gathers(trace, n)
    ensures var at := FirstPiece(n.e.keys.value.inbound);
            && Took(n, b, MixedOf(a, b, at), trace[|others|])
            && (MixedOf(a, b, at) == b.payloads <==> a.payloads[0].data[..at] == b.payloads[0].data[..at])
  {
    var key := n.e.keys.value.inbound;
    SameSplit(a, b, key, first, others);
    trace := ClashIsTaken(n, a, b, first, others, decision);
    MixedParses(a, b, key);
    MixedIsOwn(a.payloads[0].data, b.payloads[0].data, FirstPiece(key));
  }

  // ---- a run of two ends ---------------------------------------------------------

  lemma {:induction false} FewChunks(chain: bytes, n: nat, k: nat)
    requires n > 0 && |chain| <= k * n
    ensures |Chunks(chain, n)| <= k
    decreases k
  {
    if |chain| > n {
      FewChunks(chain[n..], n, k - 1);
    }
  }

  /** A payload whose data is as long as this is always split. */
  predicate LongPayload(x: RawPayload) {
    x.kind != NO_NEXT && FRAGMENT_LEN <= |x.data| < 0x1_0000 - 4
  }

  predicate Long(m: Message) {
    |m.payloads| == 1 && LongPayload(m.payloads[0])
  }

  lemma LongIsSplit(m: Message, key: Keys)
    requires Long(m)
    ensures Sealed(m, key, Some(FRAGMENT_LEN)).Ok? && IsSplit(m, key, Sealed(m, key, Some(FRAGMENT_LEN)).value)
    ensures 0 <= FirstPiece(key) < |m.payloads[0].data|
  {
    assert m.payloads[1..] == [];
    OneInChain(m);
    FewChunks(EncodeChain(m.payloads).value, FRAGMENT_LEN - Overhead(key), 57);
  }

  lemma LongExecutes(e: Endpoint, request: PeerRequest, decision: Decision)
    requires e.keys.Some? && e.peerFragments && decision.RekeyChild? && request.head.exchange.CreateChildSa?
    requires Long(NewResponse(e, CreateChildSa, request.head.id, decision.answer))
    ensures Execute(e, request, decision).answered == Some(NewResponse(e, CreateChildSa, request.head.id, decision.answer))
  {
    LongIsSplit(NewResponse(e, CreateChildSa, request.head.id, decision.answer), e.keys.value.outbound);
  }

  /** An answer of one long payload is made and split. */
  lemma LongAnswer(n: Node, d: Datagram, decision: Decision, request: PeerRequest)
    requires n.e.keys.Some? && n.e.peerFragments && n.e.peerMessageId < LAST_ID && n.e.nextIke.None?
    requires ProperAnswer(decision) && decision.RekeyChild? && Received(n, d, decision).executed == n.executed + [request]
    requires request.head.exchange.CreateChildSa? && Long(NewResponse(n.e, CreateChildSa, request.head.id, decision.answer))
    ensures var n' := Received(n, d, decision);
            && LastAnswer(n') == Some(NewResponse(n.e, CreateChildSa, request.head.id, decision.answer))
            && n'.answered == n.answered + [LastAnswer(n')]
  {
    var o := Arrive(n.e, d, decision);
    ArriveShape(n.e, d, decision);
    OneListed(n.executed, o.executed, request);
    var e' := OpenRequest(n.e, d).0;
    LongExecutes(e'.(peerMessageId := WrappingAdd(e'.peerMessageId)), request, decision);
  }

  /** Every datagram of `m`, sent by `n`, was sent. */
  ghost predicate InNet(n: Node, m: Message, net: set<Datagram>) {
    && n.e.keys.Some? && n.e.peerFragments && Sealed(m, OutKey(n), Some(FRAGMENT_LEN)).Ok?
    && forall d :: d in Sealed(m, OutKey(n), Some(FRAGMENT_LEN)).value ==> d in net
  }

  /** Both ends ask at once, as soon as the keys are set. */
  ghost predicate AtOnce(n: Node, peer: Node) {
    && AtRest(n, peer) && AtRest(peer, n) && n.e.messageId == peer.e.messageId && peer.e.peerFragments
    && n.asked == [] && n.replies == [] && peer.answered == []
  }

  /** The other end asks `q`; this end asks, and is answered with `m`. */
  ghost predicate Crossed(n: Node, peer: Node, net: set<Datagram>, q: Message, m: Message) {
    && KeysMatch(n, peer) && InNet(peer, q, net) && InNet(peer, m, net)
    && Ready(n.e) && n.e.nextIke.None? && n.e.peerMessageId < LAST_ID
    && Expected(n.e, q, m) && !q.isResponse && m.isResponse
    && n.replies == [] && |n.asked| == 1 && peer.answered == [Some(m)]
  }

  lemma BothAsk(start: System, left: bool, x: RawPayload, q: Message, r: Message)
    returns (events: seq<(bool, Event)>, s: System, ds: seq<Datagram>)
    requires KeysMatch(start.At(left), start.At(!left)) && AtOnce(start.At(left), start.At(!left)) && LongPayload(x)
    requires q == NewRequest(start.At(!left).e, Informational, [x]) && r == NewRequest(start.At(left).e, CreateChildSa, [])
    ensures Runs(start, events, s, true)
    ensures Asked(start.At(!left), s.At(!left), q) && Asked(start.At(left), s.At(left), r) && InNet(start.At(!left), q, s.net)
    ensures Sealed(r, OutKey(start.At(left)), MaxLen(start.At(left))) == Ok(ds) && forall d :: d in ds ==> d in s.net
  {
    LongIsSplit(q, OutKey(start.At(!left)));
    BareIsSealed(r, OutKey(start.At(left)), MaxLen(start.At(left)));
    var first, mid, dsq := AskedIsSent(start, [], start, !left, Informational, [x], true);
    events, s, ds := AskedIsSent(start, first, mid, left, CreateChildSa, [], true);
  }

  /** The end that answers: what it is before the last datagram of the request
      comes, and what it sends. */
  lemma Answers(before: Node, d: Datagram, r: Message, m: Message, decision: Decision, net: set<Datagram>)
    requires before.e.keys.Some? && before.e.peerFragments && before.e.peerMessageId < LAST_ID && before.e.nextIke.None?
    requires ProperAnswer(decision) && decision.RekeyChild? && r.exchange.CreateChildSa? && before.answered == []
    requires m == NewResponse(before.e, CreateChildSa, r.id, decision.answer) && Long(m)
    requires Received(before, d, decision).executed == before.executed + [PeerRequest(HeadOf(r), r.payloads)]
    requires forall a :: a in Arrive(before.e, d, decision).sent ==> a in net
    ensures var n' := Received(before, d, decision);
            n'.e.keys == before.e.keys && n'.answered == [Some(m)] && InNet(n', m, net)
  {
    LongAnswer(before, d, decision, PeerRequest(HeadOf(r), r.payloads));
    ExecutedIsAnswered(before, d, decision, PeerRequest(HeadOf(r), r.payloads));
  }

  /** The request of this end arrives, and is answered with `y`. */
  lemma RequestCrosses(start: System, events: seq<(bool, Event)>, s: System, left: bool, q: Message, r: Message,
                       ds: seq<Datagram>, y: RawPayload, child: Child)
    returns (more: seq<(bool, Event)>, s': System, m: Message)
    requires Runs(start, events, s, true) && KeysMatch(s.At(left), s.At(!left)) && InNet(s.At(!left), q, s.net)
    requires Ready(s.At(!left).e) && s.At(!left).e.nextIke.None? && s.At(!left).e.peerMessageId < LAST_ID
    requires Heads(s.At(!left).e, HeadOf(r)) && !r.isResponse && r.payloads == [] && r.exchange.CreateChildSa?
    requires Sealed(r, OutKey(s.At(left)), MaxLen(s.At(left))) == Ok(ds) && forall d :: d in ds ==> d in s.net
    requires s.At(!left).answered == [] && LongPayload(y)
    ensures Runs(start, more, s', true) && s'.At(left) == s.At(left) && KeysMatch(s'.At(left), s'.At(!left))
    ensures InNet(s'.At(!left), q, s'.net) && InNet(s'.At(!left), m, s'.net) && OutKey(s'.At(!left)) == OutKey(s.At(!left))
    ensures s'.At(!left).answered == [Some(m)] && m == NewResponse(s.At(!left).e, CreateChildSa, r.id, [y])
  {
    BareIsSealed(r, OutKey(s.At(left)), MaxLen(s.At(left)));
    var decision := RekeyChild([y], 0, child);
    var before: Node;
    more, s', before := MessageArrives(start, events, s, !left, r, ds, decision, true);
    m := NewResponse(before.e, CreateChildSa, r.id, [y]);
    Answers(before, ds[|ds| - 1], r, m, decision, s'.net);
  }

  lemma Crosses(start: System, left: bool, x: RawPayload, y: RawPayload, child: Child)
    returns (events: seq<(bool, Event)>, s: System, q: Message, m: Message)
    requires KeysMatch(start.At(left), start.At(!left)) && AtOnce(start.At(left), start.At(!left)) && LongPayload(x) && LongPayload(y)
    ensures Runs(start, events, s, true) && Crossed(s.At(left), s.At(!left), s.net, q, m)
    ensures q.payloads == [x] && m.payloads == [y] && OutKey(s.At(!left)) == OutKey(start.At(!left))
  {
    q := NewRequest(start.At(!left).e, Informational, [x]);
    var r := NewRequest(start.At(left).e, CreateChildSa, []);
    var first, mid, ds := BothAsk(start, left, x, q, r);
    events, s, m := RequestCrosses(start, first, mid, left, q, r, ds, y, child);
  }

  /** The one request of this end was answered with `m`, and this end took
      something else for the reply. */
  lemma NotTheAnswer(n: Node, peer: Node, m: Message, payloads: seq<RawPayload>)
    requires |n.asked| == 1 && peer.answered == [Some(m)] && n.replies == [Reply(HeadOf(m), payloads)] && payloads != m.payloads
    ensures !RepliesAnswer(n, peer)
  {
    var r := n.replies[0];
    assert r in n.replies;
    forall i: nat ensures !SessionSafety.Answers(n, peer, r, i) {
    }
  }

  /** The data of `x` that comes in the first fragment. */
  function FirstOf(x: RawPayload, key: Keys): bytes
    requires LongPayload(x)
  {
    x.data[..FirstPiece(key)]
  }

  lemma MixIsOf(first: seq<Datagram>, others: seq<Datagram>)
    requires |first| == |others| > 0
    ensures Mix(first, others) != [] && |Mix(first, others)| == |others|
    ensures forall d :: d in Mix(first, others) ==> d in first || d in others
  {
  }

  lemma MixTraced(n: Node, key: Keys, q: Message, m: Message)
    returns (first: seq<Datagram>, others: seq<Datagram>, trace: seq<Node>)
    requires Ready(n.e) && n.e.keys.value.inbound == key && Expected(n.e, q, m) && Long(q) && Long(m) && Alike(q, m)
    ensures Sealed(q, key, Some(FRAGMENT_LEN)) == Ok(first) && Sealed(m, key, Some(FRAGMENT_LEN)) == Ok(others)
    ensures |first| == |others| > 0 && Gets(trace, Mix(first, others), Unintelligible) && trace[0] == n && Gathers(trace, n)
    ensures var at := FirstPiece(key);
            && 0 <= at < |q.payloads[0].data| && Took(n, m, MixedOf(q, m, at), trace[|others|])
            && (MixedOf(q, m, at) == m.payloads <==> FirstOf(q.payloads[0], key) == FirstOf(m.payloads[0], key))
  {
    LongIsSplit(q, key);
    LongIsSplit(m, key);
    first, others := Sealed(q, key, Some(FRAGMENT_LEN)).value, Sealed(m, key, Some(FRAGMENT_LEN)).value;
    trace := ClashMixesData(n, q, m, first, others, Unintelligible);
  }

  lemma MixArrives(start: System, events: seq<(bool, Event)>, s: System, left: bool, q: Message, m: Message)
    returns (more: seq<(bool, Event)>, s': System)
    requires Runs(start, events, s, true) && Crossed(s.At(left), s.At(!left), s.net, q, m)
    requires Long(q) && Long(m) && Alike(q, m)
    ensures Runs(start, more, s', true) && s'.At(!left) == s.At(!left) && s'.At(left).asked == s.At(left).asked
    ensures var at := FirstPiece(OutKey(s.At(!left)));
            && 0 <= at < |q.payloads[0].data|
            && s'.At(left).replies == [Reply(HeadOf(m), MixedOf(q, m, at))]
            && (MixedOf(q, m, at) == m.payloads <==> FirstOf(q.payloads[0], OutKey(s.At(!left))) == FirstOf(m.payloads[0], OutKey(s.At(!left))))
  {
    var first, others, trace := MixTraced(s.At(left), OutKey(s.At(!left)), q, m);
    var before: Node;
    MixIsOf(first, others);
    more, s', before := RunDeliversAll(start, events, s, left, trace, Mix(first, others), Unintelligible, true);
  }

  /** Of two ends that ask at once, one something long and the other what is
      answered as long, the second takes for its reply what nobody sent:
      without `NoClash`, replies need not be answers. */
  lemma ClashBreaksReplies(start: System, left: bool, x: RawPayload, y: RawPayload, child: Child)
    returns (events: seq<(bool, Event)>, s: System)
    requires KeysMatch(start.At(left), start.At(!left)) && AtOnce(start.At(left), start.At(!left))
    requires LongPayload(x) && LongPayload(y) && x.kind == y.kind && |x.data| == |y.data|
    requires FirstOf(x, OutKey(start.At(!left))) != FirstOf(y, OutKey(start.At(!left)))
    ensures Runs(start, events, s, true) && !RepliesAnswer(s.At(left), s.At(!left))
  {
    var first, mid, q, m := Crosses(start, left, x, y, child);
    events, s := MixArrives(start, first, mid, left, q, m);
    NotTheAnswer(s.At(left), s.At(!left), m, MixedOf(q, m, FirstPiece(OutKey(mid.At(!left)))));
  }
}
