/** Chains of payloads (RFC 7296 section 3.2): each header carries the type
    of the payload after it. */
module Payloads {
  import opened Bytes

  const NO_NEXT: byte := 0
  const SK: byte := 46
  const SKF: byte := 53

  datatype RawPayload = RawPayload(kind: byte, data: bytes)

  function First(payloads: seq<RawPayload>): byte {
    if payloads == [] then NO_NEXT else payloads[0].kind
  }

  /** One payload: the type of the next one, flags, length, data. */
  function EncodePayload(next: byte, data: bytes): bytes
    requires |data| + 4 < 0x1_0000
  {
    [next, 0] + Be16(|data| + 4) + data
  }

  function EncodeChain(payloads: seq<RawPayload>): Result<bytes> {
    if payloads == [] then Ok([])
    else if |payloads[0].data| + 4 >= 0x1_0000 then Err(TooLong)
    else
      Prepend(EncodePayload(First(payloads[1..]), payloads[0].data), EncodeChain(payloads[1..]))
  }

  function ParseChain(first: byte, data: bytes): Result<seq<RawPayload>>
    decreases |data|
  {
    if first == NO_NEXT then (if data == [] then Ok([]) else Err(Malformed))
    else if |data| < 4 then Err(Malformed)
    else
      var length := FromBe16(data[2..4]);
      if length < 4 || |data| < length then Err(Malformed)
      else
        Prepend([RawPayload(first, data[4..length])], ParseChain(data[0], data[length..]))
  }

  lemma {:induction false} EncodeChainFails(payloads: seq<RawPayload>)
    ensures EncodeChain(payloads).Err? ==> EncodeChain(payloads) == Err(TooLong)
  {
    if payloads != [] {
      EncodeChainFails(payloads[1..]);
    }
  }

  /** Appends the chain to `out`; answers the type of the first payload. */
  method AppendChain(payloads: seq<RawPayload>, out: bytes) returns (first: Result<byte>, chain: bytes)
    ensures first == if EncodeChain(payloads).Ok? then Ok(First(payloads)) else Err(TooLong)
    ensures first.Ok? ==> chain == out + EncodeChain(payloads).value
  {
    chain := out;
    var index := 0;
    PrependNothing(EncodeChain(payloads));
    assert payloads[0..] == payloads && chain[|out|..] == [];
    while index < |payloads|
      invariant 0 <= index <= |payloads|
      invariant out <= chain
      invariant EncodeChain(payloads) == Prepend(chain[|out|..], EncodeChain(payloads[index..]))
    {
      var rest := payloads[index..];
      assert rest[1..] == payloads[index + 1..];
      var next := if index + 1 < |payloads| then payloads[index + 1].kind else NO_NEXT;
      var length := |payloads[index].data| + 4;
      if length >= 0x1_0000 {
        return Err(TooLong), chain;
      }
      ghost var before := chain;
      chain := chain + [next];
      chain := chain + [0];
      chain := chain + Be16(length);
      chain := chain + payloads[index].data;
      assert chain[|out|..] == before[|out|..] + EncodePayload(next, payloads[index].data);
      EncodeChainFails(payloads[index + 1..]);
      PrependTwice(before[|out|..], EncodePayload(next, payloads[index].data), EncodeChain(payloads[index + 1..]));
      index := index + 1;
    }
    assert payloads[index..] == [];
    return Ok(if payloads == [] then NO_NEXT else payloads[0].kind), chain;
  }

  method ReadChain(first: byte, data: bytes) returns (r: Result<seq<RawPayload>>)
    ensures r == ParseChain(first, data)
  {
    var reader := new Reader(data);
    var payloads := [];
    var kind := first;
    PrependNothing(ParseChain(first, data));
    while kind != NO_NEXT
      invariant ParseChain(first, data) == Prepend(payloads, ParseChain(kind, reader.data))
      decreases |reader.data|
    {
      ghost var rest := reader.data;
      var next := reader.U8();
      if next.Err? { return Err(next.error); }
      var flags := reader.Take(1);
      if flags.Err? { return Err(flags.error); }
      assert reader.data == rest[2..];
      var length := reader.U16();
      if length.Err? { return Err(length.error); }
      assert rest[2..][..2] == rest[2..4] && reader.data == rest[4..];
      if length.value < 4 {
        return Err(Malformed);
      }
      var body := reader.Take(length.value - 4);
      if body.Err? { return Err(body.error); }
      assert body.value == rest[4..length.value] && reader.data == rest[length.value..];
      PrependTwice(payloads, [RawPayload(kind, body.value)], ParseChain(next.value, reader.data));
      payloads := payloads + [RawPayload(kind, body.value)];
      kind := next.value;
    }
    if reader.data != [] {
      return Err(Malformed);
    }
    r := Ok(payloads);
    assert payloads + [] == payloads;
  }

  lemma {:induction false} ParsedKinds(first: byte, data: bytes)
    requires ParseChain(first, data).Ok?
    ensures forall i :: 0 <= i < |ParseChain(first, data).value| ==> ParseChain(first, data).value[i].kind != NO_NEXT
    decreases |data|
  {
    if first != NO_NEXT {
      ParsedKinds(data[0], data[FromBe16(data[2..4])..]);
    }
  }

  lemma {:induction false} ChainComesBack(payloads: seq<RawPayload>)
    requires EncodeChain(payloads).Ok?
    requires forall i :: 0 <= i < |payloads| ==> payloads[i].kind != NO_NEXT
    ensures ParseChain(First(payloads), EncodeChain(payloads).value) == Ok(payloads)
  {
    if payloads != [] {
      ChainComesBack(payloads[1..]);
      var data := payloads[0].data;
      var chain := EncodeChain(payloads).value;
      var rest := EncodeChain(payloads[1..]).value;
      assert chain[2..4] == Be16(|data| + 4);
      assert chain[4..|data| + 4] == data;
      assert chain[|data| + 4..] == rest;
      assert payloads == [payloads[0]] + payloads[1..];
    }
  }

  /** A chain that encodes comes back whole, unless a payload in it has the
      type that means "no next payload". */
  lemma ChainRoundTrip(payloads: seq<RawPayload>)
    requires EncodeChain(payloads).Ok?
    ensures ParseChain(First(payloads), EncodeChain(payloads).value) == Ok(payloads)
      <==> forall i :: 0 <= i < |payloads| ==> payloads[i].kind != NO_NEXT
  {
    if forall i :: 0 <= i < |payloads| ==> payloads[i].kind != NO_NEXT {
      ChainComesBack(payloads);
    } else if ParseChain(First(payloads), EncodeChain(payloads).value) == Ok(payloads) {
      ParsedKinds(First(payloads), EncodeChain(payloads).value);
    }
  }
}
