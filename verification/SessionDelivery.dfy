/** What an end of an IKE SA takes when datagrams come in, one after another. */
module SessionDelivery {
  import opened Bytes
  import opened Payloads
  import opened Messages
  import opened Reassembly
  import opened Session
  import opened SessionSafety

  function Received(n: Node, d: Datagram, decision: Decision): Node {
    After(n, Arrive(n.e, d, decision))
  }

  /** What an end is before, between and after these datagrams. */
  ghost predicate Gets(trace: seq<Node>, ds: seq<Datagram>, decision: Decision) {
    && |trace| == |ds| + 1
    && forall i :: 0 <= i < |ds| ==> trace[i + 1] == Received(trace[i], ds[i], decision)
  }

  /** `n` but for the pieces it holds. */
  predicate Gathering(n': Node, n: Node) {
    n' == n.(e := n.e.(pieces := n'.e.pieces))
  }

  /** Until the last datagram only pieces are gathered. */
  ghost predicate Gathers(trace: seq<Node>, n: Node) {
    forall i :: 0 <= i < |trace| - 1 ==> Gathering(trace[i], n)
  }

  /** A head of the SA of `e`: of the reply it waits for, or of the next
      request it can execute. */
  predicate Heads(e: Endpoint, head: Head) {
    && (head.spiI, head.spiR) == (e.spiI, e.spiR)
    && if head.isResponse then e.waiting.Some? && head.id == e.waiting.value.id else head.id == e.peerMessageId
  }

  /** Its pieces are none, and it is ready to take what comes. */
  predicate Ready(e: Endpoint) {
    e.keys.Some? && e.pieces == EMPTY && !e.down
  }

  /** A piece that completes nothing is kept, be it of a request or an answer. */
  lemma PieceIsKept(e: Endpoint, d: Datagram, decision: Decision)
    requires e.keys.Some? && d.key.Some? && !e.down && Heads(e, d.head)
    requires Open(e, e.keys.value, d).1 == Ok(None)
    ensures Arrive(e, d, decision) == Quiet(Open(e, e.keys.value, d).0)
  {
  }

  lemma ExecuteExecutes(e: Endpoint, request: PeerRequest, decision: Decision)
    ensures var o := Execute(e, request, decision); o.executed == Some(request) && o.reply.None? && o.asked.None?
  {
  }

  /** And one that completes a message: it is the reply, or executed. */
  lemma LastPieceIsTaken(e: Endpoint, d: Datagram, decision: Decision, payloads: seq<RawPayload>)
    requires e.keys.Some? && d.key.Some? && Heads(e, d.head)
    requires Open(e, e.keys.value, d).1 == Ok(Some(payloads))
    ensures var o := Arrive(e, d, decision);
            && o.asked.None?
            && (d.head.isResponse ==> o.reply == Some(Reply(d.head, payloads)) && o.executed.None? && o.e.waiting.None?)
            && (!d.head.isResponse ==> o.executed == Some(PeerRequest(d.head, payloads)) && o.reply.None?)
  {
    var e' := Open(e, e.keys.value, d).0;
    ExecuteExecutes(e'.(peerMessageId := WrappingAdd(e'.peerMessageId)), PeerRequest(d.head, payloads), decision);
  }

  /** Unless it does not parse. */
  lemma LastPieceIsRefused(e: Endpoint, d: Datagram, decision: Decision)
    requires e.keys.Some? && d.key.Some? && Heads(e, d.head) && Open(e, e.keys.value, d).1.Err?
    ensures var o := Arrive(e, d, decision); o.reply.None? && o.executed.None? && o.asked.None?
  {
  }

  /** What `Open` makes of the answer of the reassembler. */
  function Unwrapped(r: Result<Option<Decrypted>>): Result<Option<seq<RawPayload>>> {
    match r
    case Err(error) => Err(error)
    case Ok(None) => Ok(None)
    case Ok(Some(whole)) => Whole(whole)
  }

  lemma OpenAdds(e: Endpoint, d: Datagram)
    requires e.keys.Some? && d.key == Some(e.keys.value.inbound) && d.content.fragment.Some?
    ensures var (pieces, r) := Add(e.pieces, d.head.id, d.content);
            Open(e, e.keys.value, d) == (e.(pieces := pieces), Unwrapped(r))
  {
  }

  lemma QuietAfter(n: Node, e: Endpoint)
    ensures After(n, Quiet(e)) == n.(e := e)
  {
    assert n.asked + [] == n.asked && n.executed + [] == n.executed && n.answered + [] == n.answered && n.replies + [] == n.replies;
  }

  /** One more piece that completes nothing. */
  lemma PieceReceived(n: Node, held: Pieces, d: Datagram, decision: Decision)
    requires n.e.keys.Some? && !n.e.down && d.key == Some(n.e.keys.value.inbound) && d.content.fragment.Some? && Heads(n.e, d.head)
    requires Add(held, d.head.id, d.content).1 == Ok(None)
    ensures Received(n.(e := n.e.(pieces := held)), d, decision) == n.(e := n.e.(pieces := Add(held, d.head.id, d.content).0))
  {
    var e := n.e.(pieces := held);
    OpenAdds(e, d);
    PieceIsKept(e, d, decision);
    QuietAfter(n.(e := e), Open(e, e.keys.value, d).0);
  }

  /** What an end takes for a message that has the head of `m`. */
  predicate Took(n: Node, m: Message, payloads: seq<RawPayload>, n': Node) {
    && n'.asked == n.asked
    && if m.isResponse then n'.replies == n.replies + [Reply(HeadOf(m), payloads)] && n'.executed == n.executed && n'.e.waiting.None?
       else n'.executed == n.executed + [PeerRequest(HeadOf(m), payloads)] && n'.replies == n.replies
  }

  predicate TookNothing(n: Node, n': Node) {
    n'.executed == n.executed && n'.replies == n.replies
  }

  /** The piece that completes a message: it is taken if it parses. */
  lemma LastReceived(n: Node, b: Message, held: Pieces, d: Datagram, decision: Decision, whole: Decrypted)
    requires n.e.keys.Some? && d.key == Some(n.e.keys.value.inbound) && d.content.fragment.Some? && Heads(n.e, d.head) && d.head == HeadOf(b)
    requires Add(held, d.head.id, d.content).1 == Ok(Some(whole))
    ensures var n' := Received(n.(e := n.e.(pieces := held)), d, decision);
            if Whole(whole).Ok? then Took(n, b, Whole(whole).value.value, n') else TookNothing(n, n')
  {
    var e := n.e.(pieces := held);
    OpenAdds(e, d);
    if Whole(whole).Ok? {
      LastPieceIsTaken(e, d, decision, Whole(whole).value.value);
    } else {
      LastPieceIsRefused(e, d, decision);
    }
    assert n.executed + [] == n.executed && n.replies + [] == n.replies && n.asked + [] == n.asked;
  }

  /** The datagrams of a message split in a number of pieces a receiver takes. */
  ghost predicate IsSplit(m: Message, key: Keys, ds: seq<Datagram>) {
    && Sealed(m, key, Some(FRAGMENT_LEN)) == Ok(ds)
    && Splits(key, |EncodeChain(m.payloads).value|, Some(FRAGMENT_LEN))
    && CutOf(m, key, FRAGMENT_LEN).Valid()
  }

  /** `ds` are the datagrams of `m`, which is cut in the pieces of `cut`. */
  ghost predicate Sends(e: Endpoint, m: Message, ds: seq<Datagram>, cut: Cut) {
    && e.keys.Some? && cut.Valid() && |ds| == |cut.chunks| >= 2
    && forall k :: 0 <= k < |ds| ==> ds[k] == Session.Datagram.Datagram(HeadOf(m), Some(e.keys.value.inbound), cut.Piece(k + 1))
  }

  lemma SplitSends(e: Endpoint, m: Message, ds: seq<Datagram>)
    requires e.keys.Some? && IsSplit(m, e.keys.value.inbound, ds)
    ensures Sends(e, m, ds, CutOf(m, e.keys.value.inbound, FRAGMENT_LEN))
  {
    var key := e.keys.value.inbound;
    var cut := CutOf(m, key, FRAGMENT_LEN);
    ChunksFit(EncodeChain(m.payloads).value, FRAGMENT_LEN - Overhead(key));
    assert |ds| == |cut.chunks|;
    forall k | 0 <= k < |ds| ensures ds[k] == Session.Datagram.Datagram(HeadOf(m), Some(key), cut.Piece(k + 1)) {
      SealedPiece(m, key, FRAGMENT_LEN, k);
    }
  }

  lemma SentPiece(e: Endpoint, m: Message, ds: seq<Datagram>, cut: Cut, k: nat)
    requires Sends(e, m, ds, cut) && k < |ds| && Heads(e, HeadOf(m))
    ensures ds[k].key == Some(e.keys.value.inbound) && ds[k].head == HeadOf(m) && ds[k].content == cut.Piece(k + 1)
    ensures Heads(e, ds[k].head) && ds[k].content.fragment.Some?
  {
  }

  /** The first datagram of one message and the others of another. */
  function Mix(first: seq<Datagram>, others: seq<Datagram>): seq<Datagram>
    requires |first| == |others| > 0
  {
    [first[0]] + others[1..]
  }

  /** Two messages of one id that may come next. */
  predicate Expected(e: Endpoint, a: Message, b: Message) {
    a.id == b.id && Heads(e, HeadOf(a)) && Heads(e, HeadOf(b))
  }

  /** What is held after `i` of the mixed pieces. */
  function HeldAfter(id: u32, x: Cut, y: Cut, i: nat): Pieces
    requires x.Valid() && y.Valid() && i <= |y.chunks|
  {
    if i == 0 then EMPTY else FeedMixed(id, x, y, i).0
  }

  lemma MixedPiece(n: Node, a: Message, b: Message, first: seq<Datagram>, others: seq<Datagram>, x: Cut, y: Cut, i: nat)
    requires Ready(n.e) && Expected(n.e, a, b) && |first| == |others|
    requires Sends(n.e, a, first, x) && Sends(n.e, b, others, y) && i < |others|
    ensures var d := Mix(first, others)[i];
            && d.key == Some(n.e.keys.value.inbound) && d.content.fragment.Some? && Heads(n.e, d.head) && d.head == HeadOf(if i == 0 then a else b)
            && Add(HeldAfter(a.id, x, y, i), d.head.id, d.content) == FeedMixed(a.id, x, y, i + 1)
  {
    if i == 0 {
      SentPiece(n.e, a, first, x, 0);
    } else {
      SentPiece(n.e, b, others, y, i);
    }
  }

  /** The end with this many of the mixed pieces. */
  function WithPieces(n: Node, id: u32, x: Cut, y: Cut, i: nat): Node
    requires x.Valid() && y.Valid() && i <= |y.chunks|
  {
    n.(e := n.e.(pieces := HeldAfter(id, x, y, i)))
  }

  lemma MixedReceived(n: Node, a: Message, b: Message, first: seq<Datagram>, others: seq<Datagram>, x: Cut, y: Cut, i: nat, decision: Decision)
    requires Ready(n.e) && Expected(n.e, a, b) && |first| == |others|
    requires Sends(n.e, a, first, x) && Sends(n.e, b, others, y) && i < |others| - 1
    ensures WithPieces(n, a.id, x, y, i + 1) == Received(WithPieces(n, a.id, x, y, i), Mix(first, others)[i], decision)
  {
    var d := Mix(first, others)[i];
    assert Add(HeldAfter(a.id, x, y, i), d.head.id, d.content) == (HeldAfter(a.id, x, y, i + 1), Ok(None)) by {
      MixedPiece(n, a, b, first, others, x, y, i);
      MixedFeed(a.id, x, y, i + 1);
    }
    assert Heads(n.e, d.head) && d.key == Some(n.e.keys.value.inbound) && d.content.fragment.Some? by {
      MixedPiece(n, a, b, first, others, x, y, i);
    }
    PieceReceived(n, HeldAfter(a.id, x, y, i), d, decision);
  }

  /** All but the last of them are kept. */
  lemma MixIsKept(n: Node, a: Message, b: Message, first: seq<Datagram>, others: seq<Datagram>, x: Cut, y: Cut, trace: seq<Node>, decision: Decision)
    requires Ready(n.e) && Expected(n.e, a, b) && |first| == |others|
    requires Sends(n.e, a, first, x) && Sends(n.e, b, others, y)
    requires |trace| == |others| && forall i :: 0 <= i < |others| ==> trace[i] == WithPieces(n, a.id, x, y, i)
    ensures Gets(trace, Mix(first, others)[..|others| - 1], decision)
  {
    var ds := Mix(first, others);
    forall i | 0 <= i < |others| - 1 ensures trace[i + 1] == Received(trace[i], ds[..|others| - 1][i], decision) {
      MixedReceived(n, a, b, first, others, x, y, i, decision);
    }
  }

  lemma GetsMore(trace: seq<Node>, ds: seq<Datagram>, n': Node, decision: Decision)
    requires ds != [] && Gets(trace, ds[..|ds| - 1], decision)
    requires n' == Received(trace[|ds| - 1], ds[|ds| - 1], decision)
    ensures Gets(trace + [n'], ds, decision)
  {
    forall i | 0 <= i < |ds| ensures (trace + [n'])[i + 1] == Received((trace + [n'])[i], ds[i], decision) {
      if i < |ds| - 1 {
        assert ds[..|ds| - 1][i] == ds[i];
      }
    }
  }

  lemma MixIsWhole(n: Node, a: Message, b: Message, first: seq<Datagram>, others: seq<Datagram>, x: Cut, y: Cut, decision: Decision)
    requires Ready(n.e) && Expected(n.e, a, b) && |first| == |others|
    requires Sends(n.e, a, first, x) && Sends(n.e, b, others, y)
    ensures var whole := Whole(Mixed(x, y).Whole());
            var n' := Received(WithPieces(n, a.id, x, y, |others| - 1), Mix(first, others)[|others| - 1], decision);
            if whole.Ok? then Took(n, b, whole.value.value, n') else TookNothing(n, n')
  {
    var k := |others| - 1;
    MixedPiece(n, a, b, first, others, x, y, k);
    SameIdAndTotalMix(a.id, x, y);
    LastReceived(n, b, HeldAfter(a.id, x, y, k), Mix(first, others)[k], decision, Mixed(x, y).Whole());
  }

  lemma MixEnds(n: Node, a: Message, b: Message, first: seq<Datagram>, others: seq<Datagram>, x: Cut, y: Cut, kept: seq<Node>, decision: Decision)
    returns (n': Node)
    requires Ready(n.e) && Expected(n.e, a, b) && |first| == |others|
    requires Sends(n.e, a, first, x) && Sends(n.e, b, others, y)
    requires |kept| == |others| && kept[|others| - 1] == WithPieces(n, a.id, x, y, |others| - 1)
    requires Gets(kept, Mix(first, others)[..|others| - 1], decision)
    ensures Gets(kept + [n'], Mix(first, others), decision)
    ensures var whole := Whole(Mixed(x, y).Whole());
            if whole.Ok? then Took(n, b, whole.value.value, n') else TookNothing(n, n')
  {
    MixIsWhole(n, a, b, first, others, x, y, decision);
    n' := Received(kept[|others| - 1], Mix(first, others)[|others| - 1], decision);
    GetsMore(kept, Mix(first, others), n', decision);
  }

  lemma MixIsTaken(n: Node, a: Message, b: Message, first: seq<Datagram>, others: seq<Datagram>, x: Cut, y: Cut, decision: Decision)
    returns (trace: seq<Node>)
    requires Ready(n.e) && Expected(n.e, a, b) && |first| == |others|
    requires Sends(n.e, a, first, x) && Sends(n.e, b, others, y)
    ensures Gets(trace, Mix(first, others), decision) && trace[0] == n && Gathers(trace, n)
    ensures var whole := Whole(Mixed(x, y).Whole());
            if whole.Ok? then Took(n, b, whole.value.value, trace[|others|]) else TookNothing(n, trace[|others|])
  {
    var kept := seq(|others|, i requires 0 <= i < |others| => WithPieces(n, a.id, x, y, i));
    MixIsKept(n, a, b, first, others, x, y, kept, decision);
    var n' := MixEnds(n, a, b, first, others, x, y, kept, decision);
    assert WithPieces(n, a.id, x, y, 0) == n.(e := n.e.(pieces := EMPTY)) == n;
    trace := kept + [n'];
  }

  // ---- a whole message, in order ------------------------------------------------

  lemma WholeReceived(n: Node, m: Message, d: Datagram, decision: Decision)
    requires Ready(n.e) && Heads(n.e, HeadOf(m)) && d.head == HeadOf(m) && d.key == Some(n.e.keys.value.inbound)
    requires d.content.fragment.None? && Whole(d.content) == Ok(Some(m.payloads))
    ensures Took(n, m, m.payloads, Received(n, d, decision))
  {
    LastPieceIsTaken(n.e, d, decision, m.payloads);
    assert n.executed + [] == n.executed && n.replies + [] == n.replies && n.asked + [] == n.asked;
  }

  lemma CutIsWhole(m: Message, key: Keys)
    requires Proper(m.payloads) && EncodeChain(m.payloads).Ok? && FRAGMENT_LEN > Overhead(key)
    ensures Whole(CutOf(m, key, FRAGMENT_LEN).Whole()) == Ok(Some(m.payloads))
  {
    ChainComesBack(m.payloads);
    ChunksJoin(EncodeChain(m.payloads).value, FRAGMENT_LEN - Overhead(key));
  }

  lemma SplitIsTaken(n: Node, m: Message, ds: seq<Datagram>, decision: Decision)
    returns (trace: seq<Node>)
    requires Ready(n.e) && Heads(n.e, HeadOf(m)) && Proper(m.payloads) && IsSplit(m, n.e.keys.value.inbound, ds)
    ensures Gets(trace, ds, decision) && trace[0] == n && Gathers(trace, n)
    ensures Took(n, m, m.payloads, trace[|ds|])
  {
    var key := n.e.keys.value.inbound;
    var cut := CutOf(m, key, FRAGMENT_LEN);
    SplitSends(n.e, m, ds);
    assert Mix(ds, ds) == ds && Mixed(cut, cut) == cut;
    CutIsWhole(m, key);
    trace := MixIsTaken(n, m, m, ds, ds, cut, cut, decision);
  }

  /** The datagrams of a message, in their order: at the last one, the end
      takes the message. */
  lemma MessageIsTaken(n: Node, m: Message, maxLen: Option<nat>, ds: seq<Datagram>, decision: Decision)
    returns (trace: seq<Node>)
    requires Ready(n.e) && Heads(n.e, HeadOf(m)) && Proper(m.payloads) && maxLen in {None, Some(FRAGMENT_LEN)}
    requires Sealed(m, n.e.keys.value.inbound, maxLen) == Ok(ds)
    requires Splits(n.e.keys.value.inbound, |EncodeChain(m.payloads).value|, maxLen) ==> CutOf(m, n.e.keys.value.inbound, FRAGMENT_LEN).Valid()
    ensures Gets(trace, ds, decision) && trace[0] == n && Gathers(trace, n)
    ensures Took(n, m, m.payloads, trace[|ds|])
  {
    var key := n.e.keys.value.inbound;
    if Splits(key, |EncodeChain(m.payloads).value|, maxLen) {
      trace := SplitIsTaken(n, m, ds, decision);
    } else {
      ChainComesBack(m.payloads);
      WholeReceived(n, m, ds[0], decision);
      trace := [n, Received(n, ds[0], decision)];
    }
  }

  // ---- in a run ------------------------------------------------------------------

  lemma RunsOn(from: System, events: seq<(bool, Event)>, s: System, left: bool, ev: Event, clash: bool)
    requires Runs(from, events, s, clash) && Possible(s, left, ev, clash)
    ensures Runs(from, events + [(left, ev)], Step(s, left, ev), clash)
  {
    var more := events + [(left, ev)];
    assert more[..|more| - 1] == events && more[|more| - 1] == (left, ev);
  }

  lemma DeliverOne(from: System, events: seq<(bool, Event)>, s: System, left: bool, d: Datagram, decision: Decision, clash: bool)
    requires Runs(from, events, s, clash) && Possible(s, left, Event.Datagram(d, decision), clash)
    ensures var s' := Step(s, left, Event.Datagram(d, decision));
            && Runs(from, events + [(left, Event.Datagram(d, decision))], s', clash)
            && s'.At(left) == Received(s.At(left), d, decision) && s'.At(!left) == s.At(!left) && s.net <= s'.net
            && forall r :: r in Arrive(s.At(left).e, d, decision).sent ==> r in s'.net
  {
    RunsOn(from, events, s, left, Event.Datagram(d, decision), clash);
  }

  lemma DeliveryIsPossible(s: System, left: bool, d: Datagram, decision: Decision, clash: bool)
    requires s.At(left).e.keys.Some? && s.At(!left).e.keys.Some? && (clash || NoClash(s.At(!left))) && d in s.net
    requires ProperAnswer(decision) && s.At(left).e.peerMessageId < LAST_ID && s.At(left).e.nextIke.None?
    ensures Possible(s, left, Event.Datagram(d, decision), clash)
  {
  }

  lemma DeliverNext(from: System, events: seq<(bool, Event)>, s: System, left: bool, q: Node, d: Datagram, decision: Decision, clash: bool)
    returns (more: seq<(bool, Event)>, s': System)
    requires Runs(from, events, s, clash) && s.At(!left).e.keys.Some? && (clash || NoClash(s.At(!left)))
    requires s.At(left).e.keys.Some? && d in s.net && q == Received(s.At(left), d, decision)
    requires ProperAnswer(decision) && s.At(left).e.peerMessageId < LAST_ID && s.At(left).e.nextIke.None?
    ensures Runs(from, more, s', clash) && events <= more
    ensures s'.At(left) == q && s'.At(!left) == s.At(!left) && s.net <= s'.net
  {
    DeliveryIsPossible(s, left, d, decision, clash);
    DeliverOne(from, events, s, left, d, decision, clash);
    more, s' := events + [(left, Event.Datagram(d, decision))], Step(s, left, Event.Datagram(d, decision));
  }

  /** Datagrams that were sent may come in, in any order. */
  lemma {:induction false} RunDelivers(from: System, events: seq<(bool, Event)>, s: System, left: bool, trace: seq<Node>,
                                       ds: seq<Datagram>, decision: Decision, k: nat, clash: bool)
    returns (more: seq<(bool, Event)>, s': System)
    requires Runs(from, events, s, clash) && s.At(!left).e.keys.Some? && (clash || NoClash(s.At(!left)))
    requires Gets(trace, ds, decision) && trace[0] == s.At(left) && Gathers(trace, s.At(left)) && k <= |ds|
    requires s.At(left).e.keys.Some? && (forall d :: d in ds ==> d in s.net)
    requires ProperAnswer(decision) && s.At(left).e.peerMessageId < LAST_ID && s.At(left).e.nextIke.None?
    ensures Runs(from, more, s', clash) && events <= more
    ensures s'.At(left) == trace[k] && s'.At(!left) == s.At(!left) && s.net <= s'.net
  {
    if k == 0 {
      more, s' := events, s;
    } else {
      var before, mid := RunDelivers(from, events, s, left, trace, ds, decision, k - 1, clash);
      more, s' := DeliverNext(from, before, mid, left, trace[k], ds[k - 1], decision, clash);
    }
  }

  /** And what the last of them makes the end send is sent. */
  lemma RunDeliversAll(from: System, events: seq<(bool, Event)>, s: System, left: bool, trace: seq<Node>,
                       ds: seq<Datagram>, decision: Decision, clash: bool)
    returns (more: seq<(bool, Event)>, s': System, before: Node)
    requires Runs(from, events, s, clash) && s.At(!left).e.keys.Some? && (clash || NoClash(s.At(!left)))
    requires Gets(trace, ds, decision) && trace[0] == s.At(left) && Gathers(trace, s.At(left)) && ds != []
    requires s.At(left).e.keys.Some? && (forall d :: d in ds ==> d in s.net)
    requires ProperAnswer(decision) && s.At(left).e.peerMessageId < LAST_ID && s.At(left).e.nextIke.None?
    ensures Runs(from, more, s', clash) && events <= more
    ensures s'.At(left) == trace[|ds|] && s'.At(!left) == s.At(!left) && s.net <= s'.net
    ensures Gathering(before, s.At(left)) && s'.At(left) == Received(before, ds[|ds| - 1], decision)
    ensures forall d :: d in Arrive(before.e, ds[|ds| - 1], decision).sent ==> d in s'.net
  {
    var first, mid := RunDelivers(from, events, s, left, trace, ds, decision, |ds| - 1, clash);
    var d := ds[|ds| - 1];
    before := mid.At(left);
    DeliveryIsPossible(mid, left, d, decision, clash);
    DeliverOne(from, first, mid, left, d, decision, clash);
    more, s' := first + [(left, Event.Datagram(d, decision))], Step(mid, left, Event.Datagram(d, decision));
  }
}
