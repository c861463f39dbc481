/** Fragments of protected messages, put back together (RFC 7383 section 2.6). */
module Reassembly {
  import opened Bytes

  /** The most fragments a message may come in. */
  const MAX_FRAGMENTS := 64

  /** What came out of an Encrypted payload: the type of the first inner
      payload, the chain or a piece of it, and for a piece its number and the
      total. */
  datatype Decrypted = Decrypted(nextPayload: byte, inner: bytes, fragment: Option<(u16, u16)>)

  datatype Pieces = Pieces(messageId: Option<u32>, total: u16, nextPayload: byte, fragments: map<nat, bytes>)

  const EMPTY := Pieces(None, 0, 0, map[])

  /** The values in the order of their keys, for keys 1 to `n`. */
  function Values(fragments: map<nat, bytes>, n: nat): bytes
  {
    if n == 0 then []
    else Values(fragments, n - 1) + (if n in fragments then fragments[n] else [])
  }

  predicate BadNumbering(number: u16, total: u16) {
    number == 0 || total == 0 || number > total || total > MAX_FRAGMENTS
  }

  /** Fragments of another message, or of another cut of it, are dropped. */
  function Settle(s: Pieces, id: u32, total: u16): Pieces {
    if s.messageId != Some(id) || s.total != total
    then s.(messageId := Some(id), total := total, fragments := map[]) else s
  }

  function Insert(s: Pieces, number: u16, d: Decrypted): (Pieces, Option<Decrypted>) {
    var next := if number == 1 then d.nextPayload else s.nextPayload;
    var fragments := s.fragments[number := d.inner];
    if |fragments| < s.total then (s.(nextPayload := next, fragments := fragments), None)
    else (EMPTY, Some(Decrypted(next, Values(fragments, s.total), None)))
  }

  /** One fragment added: the whole inner chain once complete. */
  function Add(s: Pieces, id: u32, d: Decrypted): (Pieces, Result<Option<Decrypted>>) {
    if d.fragment.None? then (s, Err(Malformed))
    else
      var (number, total) := d.fragment.value;
      if BadNumbering(number, total) then (s, Err(Malformed))
      else
        var (s', whole) := Insert(Settle(s, id, total), number, d);
        (s', Ok(whole))
  }

  class Reassembler {
    var messageId: Option<u32>
    var total: u16
    var nextPayload: byte
    var fragments: map<nat, bytes>

    function View(): Pieces
      reads this
    {
      Pieces(messageId, total, nextPayload, fragments)
    }

    constructor ()
      ensures View() == EMPTY
    {
      messageId, total, nextPayload, fragments := None, 0, 0, map[];
    }

    method AddFragment(id: u32, d: Decrypted) returns (r: Result<Option<Decrypted>>)
      modifies this
      ensures (View(), r) == Add(old(View()), id, d)
    {
      if d.fragment.None? {
        return Err(Malformed);
      }
      var (number, count) := d.fragment.value;
      if number == 0 || count == 0 || number > count || count > MAX_FRAGMENTS {
        return Err(Malformed);
      }
      if messageId != Some(id) || total != count {
        messageId := Some(id);
        total := count;
        fragments := map[];
      }
      if number == 1 {
        nextPayload := d.nextPayload;
      }
      fragments := fragments[number := d.inner];
      if |fragments| < count {
        return Ok(None);
      }
      var inner := [];
      var key := 0;
      while key < count
        invariant 0 <= key <= count
        invariant inner == Values(fragments, key)
      {
        key := key + 1;
        inner := inner + (if key in fragments then fragments[key] else []);
      }
      r := Ok(Some(Decrypted(nextPayload, inner, None)));
      messageId, total, nextPayload, fragments := None, 0, 0, map[];
    }
  }

  // ---- one message cut in pieces ---------------------------------------

  function Join(chunks: seq<bytes>): bytes {
    if chunks == [] then [] else Join(chunks[..|chunks| - 1]) + chunks[|chunks| - 1]
  }

  /** A message in pieces: the type of its first payload, and the pieces. */
  datatype Cut = Cut(first: byte, chunks: seq<bytes>) {
    predicate Valid() { 1 <= |chunks| <= MAX_FRAGMENTS }

    /** Piece `number`, as it comes out of its datagram. */
    function Piece(number: nat): Decrypted
      requires Valid() && 1 <= number <= |chunks|
    {
      Decrypted(if number == 1 then first else 0, chunks[number - 1], Some((number, |chunks|)))
    }

    function Whole(): Decrypted {
      Decrypted(first, Join(chunks), None)
    }
  }

  /** The pieces held are pieces of `m`, whose first one was seen if it is
      among them. */
  ghost predicate HoldsOnly(s: Pieces, m: Cut) {
    && m.Valid()
    && s.total == |m.chunks|
    && |s.fragments| < s.total
    && (forall k :: k in s.fragments ==> 1 <= k <= |m.chunks| && s.fragments[k] == m.chunks[k - 1])
    && (1 in s.fragments ==> s.nextPayload == m.first)
  }

  predicate Full(held: set<nat>, n: nat) {
    forall k :: 1 <= k <= n ==> k in held
  }

  lemma {:induction false} KeysBelow(held: set<nat>, n: nat)
    requires forall k :: k in held ==> 1 <= k <= n
    ensures |held| <= n && (|held| == n <==> Full(held, n))
  {
    if n == 0 {
      assert held == {};
    } else {
      KeysBelow(held - {n}, n - 1);
      if n in held {
        assert held == (held - {n}) + {n};
      } else {
        assert held == held - {n};
      }
    }
  }

  lemma {:induction false} ValuesJoin(fragments: map<nat, bytes>, m: Cut, n: nat)
    requires m.Valid() && n <= |m.chunks|
    requires forall k :: 1 <= k <= n ==> k in fragments && fragments[k] == m.chunks[k - 1]
    ensures Values(fragments, n) == Join(m.chunks[..n])
  {
    if n > 0 {
      ValuesJoin(fragments, m, n - 1);
      assert m.chunks[..n][..n - 1] == m.chunks[..n - 1];
    }
  }

  /** The numbers held of the message of this id and total. */
  function Held(s: Pieces, id: u32, total: nat): set<nat> {
    if s.messageId == Some(id) && s.total == total then s.fragments.Keys else {}
  }

  /** If the pieces held for this id and total are of `m`, so are they after. */
  ghost predicate Clean(s: Pieces, id: u32, m: Cut) {
    m.Valid() && (s.messageId == Some(id) && s.total == |m.chunks| ==> HoldsOnly(s, m))
  }

  lemma HeldWithOneMore(s: Pieces, m: Cut, number: nat)
    requires HoldsOnly(s, m) && 1 <= number <= |m.chunks|
    ensures var fragments, held := s.fragments[number := m.chunks[number - 1]], s.fragments.Keys + {number};
            && fragments.Keys == held && |fragments| <= |m.chunks|
            && (|fragments| == |m.chunks| <==> Full(held, |m.chunks|))
            && (forall k :: k in fragments ==> 1 <= k <= |m.chunks| && fragments[k] == m.chunks[k - 1])
  {
    var fragments, held := s.fragments[number := m.chunks[number - 1]], s.fragments.Keys + {number};
    assert fragments.Keys == held && |fragments| == |held|;
    KeysBelow(held, |m.chunks|);
  }

  lemma InsertPiece(s: Pieces, m: Cut, number: nat)
    requires HoldsOnly(s, m) && 1 <= number <= |m.chunks|
    ensures var held := s.fragments.Keys + {number};
            var (s', whole) := Insert(s, number, m.Piece(number));
            if Full(held, |m.chunks|) then s' == EMPTY && whole == Some(m.Whole())
            else s'.messageId == s.messageId && HoldsOnly(s', m) && whole == None && s'.fragments.Keys == held
  {
    var held := s.fragments.Keys + {number};
    HeldWithOneMore(s, m, number);
    if Full(held, |m.chunks|) {
      ValuesJoin(s.fragments[number := m.chunks[number - 1]], m, |m.chunks|);
      assert m.chunks[..|m.chunks|] == m.chunks;
    }
  }

  /** A piece is refused, and nothing changes, if and only if it has no number,
      or one that cannot be: 0, past the total, or of more than 64. */
  lemma RefusedUnlessNumbered(s: Pieces, id: u32, d: Decrypted)
    ensures Add(s, id, d).1.Err? <==>
              d.fragment.None? || d.fragment.value.0 == 0 || d.fragment.value.0 > d.fragment.value.1 || d.fragment.value.1 > 64
    ensures Add(s, id, d).1.Err? ==> Add(s, id, d).0 == s
  {
  }

  /** One more piece of `m`: kept, or the whole of `m` once all are there. */
  lemma AddPiece(s: Pieces, id: u32, m: Cut, number: nat)
    requires Clean(s, id, m) && 1 <= number <= |m.chunks|
    ensures var held := Held(s, id, |m.chunks|) + {number};
            var (s', r) := Add(s, id, m.Piece(number));
            if Full(held, |m.chunks|)
            then s' == EMPTY && r == Ok(Some(m.Whole()))
            else s'.messageId == Some(id) && HoldsOnly(s', m) && r == Ok(None) && s'.fragments.Keys == held
  {
    InsertPiece(Settle(s, id, |m.chunks|), m, number);
  }

  // ---- a feed of pieces ---------------------------------------------------

  predicate Numbers(m: Cut, order: seq<nat>) {
    m.Valid() && forall i :: 0 <= i < |order| ==> 1 <= order[i] <= |m.chunks|
  }

  function Seen(order: seq<nat>): set<nat> {
    set k | k in order
  }

  lemma SeenAppend(order: seq<nat>)
    requires order != []
    ensures Seen(order) == Seen(order[..|order| - 1]) + {order[|order| - 1]}
  {
    assert order == order[..|order| - 1] + [order[|order| - 1]];
  }

  /** A fresh reassembler fed with pieces of one message, in this order. */
  function Feed(id: u32, m: Cut, order: seq<nat>): (r: (Pieces, seq<Result<Option<Decrypted>>>))
    requires Numbers(m, order)
    ensures |r.1| == |order|
  {
    if order == [] then (EMPTY, [])
    else
      var n := |order| - 1;
      var (s, answers) := Feed(id, m, order[..n]);
      var (s', answer) := Add(s, id, m.Piece(order[n]));
      (s', answers + [answer])
  }

  /** Whatever the order and the duplicates, nothing comes out while a number
      is missing. */
  lemma {:induction false} NothingUntilComplete(id: u32, m: Cut, order: seq<nat>)
    requires Numbers(m, order) && !Full(Seen(order), |m.chunks|)
    ensures var (s, answers) := Feed(id, m, order);
            && (forall i :: 0 <= i < |answers| ==> answers[i] == Ok(None))
            && Clean(s, id, m) && Held(s, id, |m.chunks|) == Seen(order)
  {
    if order != [] {
      var n := |order| - 1;
      SeenAppend(order);
      NothingUntilComplete(id, m, order[..n]);
      AddPiece(Feed(id, m, order[..n]).0, id, m, order[n]);
    }
  }

  /** And with the last missing number the whole message does, and the
      reassembler is as new. */
  lemma WholeOnceComplete(id: u32, m: Cut, order: seq<nat>)
    requires Numbers(m, order) && order != []
    requires Full(Seen(order), |m.chunks|) && !Full(Seen(order[..|order| - 1]), |m.chunks|)
    ensures Feed(id, m, order).0 == EMPTY
    ensures Feed(id, m, order).1[|order| - 1] == Ok(Some(m.Whole()))
  {
    var n := |order| - 1;
    SeenAppend(order);
    NothingUntilComplete(id, m, order[..n]);
    AddPiece(Feed(id, m, order[..n]).0, id, m, order[n]);
  }

  // ---- two messages through one reassembler -------------------------------

  /** The first piece of `a`, then pieces 2 to `n` of `b`, all under one id. */
  function FeedMixed(id: u32, a: Cut, b: Cut, n: nat): (Pieces, Result<Option<Decrypted>>)
    requires a.Valid() && b.Valid() && 1 <= n <= |b.chunks|
  {
    if n == 1 then Add(EMPTY, id, a.Piece(1))
    else Add(FeedMixed(id, a, b, n - 1).0, id, b.Piece(n))
  }

  /** The first piece of `a` and the others of `b`. */
  function Mixed(a: Cut, b: Cut): (m: Cut)
    requires a.Valid() && b.Valid() && |a.chunks| == |b.chunks|
    ensures m.Valid() && |m.chunks| == |b.chunks|
    ensures m.Piece(1) == a.Piece(1)
    ensures forall n :: 1 < n <= |b.chunks| ==> m.Piece(n) == b.Piece(n)
  {
    Cut(a.first, [a.chunks[0]] + b.chunks[1..])
  }

  function UpTo(n: nat): (s: set<nat>)
    ensures forall k :: k in s <==> 1 <= k <= n
  {
    if n == 0 then {} else UpTo(n - 1) + {n}
  }

  /** Pieces 1 to `n` of `m` are held, or `m` just came out. */
  ghost predicate HeldUpTo(s: Pieces, r: Result<Option<Decrypted>>, id: u32, m: Cut, n: nat) {
    if n == |m.chunks| then r == Ok(Some(m.Whole()))
    else r == Ok(None) && Clean(s, id, m) && Held(s, id, |m.chunks|) == UpTo(n)
  }

  lemma NextPiece(s: Pieces, id: u32, m: Cut, n: nat)
    requires Clean(s, id, m) && 1 <= n <= |m.chunks| && Held(s, id, |m.chunks|) == UpTo(n - 1)
    ensures var (s', r) := Add(s, id, m.Piece(n)); HeldUpTo(s', r, id, m, n)
  {
    AddPiece(s, id, m, n);
    assert n + 1 !in UpTo(n);
  }

  lemma FirstOfMixed(id: u32, a: Cut, b: Cut)
    requires a.Valid() && b.Valid() && |a.chunks| == |b.chunks|
    ensures var (s, r) := FeedMixed(id, a, b, 1); HeldUpTo(s, r, id, Mixed(a, b), 1)
  {
    NextPiece(EMPTY, id, Mixed(a, b), 1);
  }

  lemma NextOfMixed(s: Pieces, r: Result<Option<Decrypted>>, id: u32, m: Cut, b: Cut, n: nat)
    requires m.Valid() && b.Valid() && |m.chunks| == |b.chunks| && 1 < n <= |b.chunks| && m.Piece(n) == b.Piece(n)
    requires HeldUpTo(s, r, id, m, n - 1)
    ensures var (s', r') := Add(s, id, b.Piece(n)); HeldUpTo(s', r', id, m, n)
  {
    NextPiece(s, id, m, n);
  }

  lemma {:induction false} MixedFeed(id: u32, a: Cut, b: Cut, n: nat)
    requires a.Valid() && b.Valid() && |a.chunks| == |b.chunks| && 1 <= n <= |b.chunks|
    ensures var (s, r) := FeedMixed(id, a, b, n); HeldUpTo(s, r, id, Mixed(a, b), n)
  {
    if n == 1 {
      FirstOfMixed(id, a, b);
    } else {
      MixedFeed(id, a, b, n - 1);
      var (s, r) := FeedMixed(id, a, b, n - 1);
      NextOfMixed(s, r, id, Mixed(a, b), b, n);
    }
  }

  /** Two messages of one id and one total are not told apart: the first
      piece of one and the others of the other come out as one message. */
  lemma SameIdAndTotalMix(id: u32, a: Cut, b: Cut)
    requires a.Valid() && b.Valid() && |a.chunks| == |b.chunks|
    ensures FeedMixed(id, a, b, |b.chunks|).1 == Ok(Some(Mixed(a, b).Whole()))
  {
    MixedFeed(id, a, b, |b.chunks|);
  }
}
