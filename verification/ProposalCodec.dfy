/** SA payloads on the wire: proposals of transforms (RFC 7296 section 3.3). */
module ProposalCodec {
  import opened Bytes

  datatype Protocol = Ike | Ah | Esp {
    function Id(): byte {
      match this
      case Ike => 1
      case Ah => 2
      case Esp => 3
    }
  }

  function ProtocolFromId(id: byte): Option<Protocol> {
    if id == 1 then Some(Ike) else if id == 2 then Some(Ah) else if id == 3 then Some(Esp) else None
  }

  datatype TransformType = Encryption | PseudoRandom | Integrity | DiffieHellman | Esn {
    function Id(): byte {
      match this
      case Encryption => 1
      case PseudoRandom => 2
      case Integrity => 3
      case DiffieHellman => 4
      case Esn => 5
    }
  }

  function TypeFromId(id: byte): Option<TransformType> {
    if id == 1 then Some(Encryption)
    else if id == 2 then Some(PseudoRandom)
    else if id == 3 then Some(Integrity)
    else if id == 4 then Some(DiffieHellman)
    else if id == 5 then Some(Esn)
    else None
  }

  /** Attribute type of the key length. */
  const KEY_LENGTH: u16 := 14

  datatype Transform = Transform(kind: TransformType, id: u16, keyBits: Option<u16>)

  /** `foreign`: some transforms are of a type we do not know. */
  datatype Proposal = Proposal(number: byte, protocol: Protocol, spi: bytes, transforms: seq<Transform>, foreign: bool) {
    predicate Fits() { |spi| < 0x100 && |transforms| < 0x100 }
  }

  // ---- encoding --------------------------------------------------------------------

  function EncodeTransform(t: Transform, last: bool): bytes {
    [if last then 0 else 3, 0] + Be16(if t.keyBits.Some? then 12 else 8) + [t.kind.Id(), 0] + Be16(t.id)
    + if t.keyBits.Some? then Be16(0x8000 + KEY_LENGTH) + Be16(t.keyBits.value) else []
  }

  /** The transforms, the last one marked. */
  function EncodeTransforms(transforms: seq<Transform>): (b: bytes)
    ensures |b| <= 12 * |transforms|
  {
    if transforms == [] then []
    else EncodeTransform(transforms[0], |transforms| == 1) + EncodeTransforms(transforms[1..])
  }

  function EncodeBody(p: Proposal): (b: bytes)
    requires p.Fits()
    ensures |b| + 4 < 0x1_0000
  {
    [p.number, p.protocol.Id(), |p.spi|, |p.transforms|] + p.spi + EncodeTransforms(p.transforms)
  }

  function EncodeProposal(p: Proposal, last: bool): (b: bytes)
    requires p.Fits()
    ensures |b| >= 8
  {
    [if last then 0 else 2, 0] + Be16(|EncodeBody(p)| + 4) + EncodeBody(p)
  }

  function Encode(ps: seq<Proposal>): bytes
    requires forall p :: p in ps ==> p.Fits()
  {
    if ps == [] then [] else EncodeProposal(ps[0], |ps| == 1) + Encode(ps[1..])
  }

  method AppendTransform(t: Transform, last: bool, out: bytes) returns (b: bytes)
    ensures b == out + EncodeTransform(t, last)
  {
    b := out + [if last then 0 else 3];
    b := b + [0];
    b := b + Be16(8 + if t.keyBits.Some? then 4 else 0);
    b := b + [t.kind.Id()];
    b := b + [0];
    b := b + Be16(t.id);
    if t.keyBits.Some? {
      b := b + Be16(0x8000 + KEY_LENGTH);
      b := b + Be16(t.keyBits.value);
    }
  }

  lemma Regroup(a: bytes, b: bytes, c: bytes, whole: bytes)
    requires whole == b + c
    ensures a + whole == a + b + c
  {
  }

  lemma EncodeOneTransform(b: bytes, transforms: seq<Transform>)
    requires transforms != []
    ensures b + EncodeTransforms(transforms)
            == b + EncodeTransform(transforms[0], |transforms| == 1) + EncodeTransforms(transforms[1..])
  {
    Regroup(b, EncodeTransform(transforms[0], |transforms| == 1), EncodeTransforms(transforms[1..]), EncodeTransforms(transforms));
  }

  method AppendTransforms(transforms: seq<Transform>, out: bytes) returns (b: bytes)
    ensures b == out + EncodeTransforms(transforms)
  {
    b := out;
    var i := 0;
    assert transforms[0..] == transforms;
    while i < |transforms|
      invariant 0 <= i <= |transforms|
      invariant b + EncodeTransforms(transforms[i..]) == out + EncodeTransforms(transforms)
    {
      assert transforms[i..][1..] == transforms[i + 1..];
      EncodeOneTransform(b, transforms[i..]);
      b := AppendTransform(transforms[i], i + 1 == |transforms|, b);
      i := i + 1;
    }
    assert b + [] == b;
  }

  method AppendProposal(p: Proposal, last: bool, out: bytes) returns (b: bytes)
    requires p.Fits()
    ensures b == out + EncodeProposal(p, last)
  {
    var body := [p.number];
    body := body + [p.protocol.Id()];
    var spiLen: byte, count: byte := |p.spi|, |p.transforms|;
    body := body + [spiLen];
    body := body + [count];
    body := body + p.spi;
    body := AppendTransforms(p.transforms, body);
    assert body == EncodeBody(p);
    b := out + [if last then 0 else 2];
    b := b + [0];
    b := b + Be16(|body| + 4);
    b := b + body;
  }

  lemma EncodeOneMore(b: bytes, ps: seq<Proposal>)
    requires ps != [] && forall p :: p in ps ==> p.Fits()
    ensures b + Encode(ps) == b + EncodeProposal(ps[0], |ps| == 1) + Encode(ps[1..])
  {
    assert ps[0] in ps;
    Regroup(b, EncodeProposal(ps[0], |ps| == 1), Encode(ps[1..]), Encode(ps));
  }

  method EncodeProposals(ps: seq<Proposal>) returns (b: bytes)
    requires forall p :: p in ps ==> p.Fits()
    ensures b == Encode(ps)
  {
    b := [];
    var i := 0;
    assert ps[0..] == ps;
    while i < |ps|
      invariant 0 <= i <= |ps|
      invariant b + Encode(ps[i..]) == Encode(ps)
    {
      assert ps[i] in ps && ps[i..][1..] == ps[i + 1..];
      EncodeOneMore(b, ps[i..]);
      b := AppendProposal(ps[i], i + 1 == |ps|, b);
      i := i + 1;
    }
    assert b + [] == b;
  }

  // ---- decoding --------------------------------------------------------------------

  /** The last key length among the attributes, or `bits`. */
  function DecodeAttributes(data: bytes, bits: Option<u16>): Result<Option<u16>>
    decreases |data|
  {
    if data == [] then Ok(bits)
    else if |data| < 4 then Err(Malformed)
    else
      var format, value := FromBe16(data[..2]), FromBe16(data[2..4]);
      if format >= 0x8000 then DecodeAttributes(data[4..], if format - 0x8000 == KEY_LENGTH then Some(value) else bits)
      else if |data| - 4 < value then Err(Malformed)
      else DecodeAttributes(data[4 + value..], bits)
  }

  /** A transform, None of an unknown type; whether it is the last; the rest. */
  function DecodeTransform(data: bytes): (r: Result<(Option<Transform>, bool, bytes)>)
    ensures r.Ok? ==> |r.value.2| < |data|
  {
    if |data| < 4 then Err(Malformed)
    else
      var length := FromBe16(data[2..4]);
      if length < 8 || |data| < length then Err(Malformed)
      else
        var bits :- DecodeAttributes(data[8..length], None);
        var kind := TypeFromId(data[4]);
        Ok((if kind.Some? then Some(Transform(kind.value, FromBe16(data[6..8]), bits)) else None, data[0] == 0, data[length..]))
  }

  function Add(one: Option<Transform>, r: Result<(seq<Transform>, bool, bytes)>): Result<(seq<Transform>, bool, bytes)> {
    if r.Err? then r
    else if one.Some? then Ok(([one.value] + r.value.0, r.value.1, r.value.2))
    else Ok((r.value.0, true, r.value.2))
  }

  /** `count` transforms, of which no earlier one is marked the last. */
  function DecodeTransforms(count: nat, data: bytes): Result<(seq<Transform>, bool, bytes)> {
    if count == 0 then Ok(([], false, data))
    else
      var (one, last, rest) :- DecodeTransform(data);
      if last && count > 1 then Err(Malformed)
      else Add(one, DecodeTransforms(count - 1, rest))
  }

  function DecodeBody(body: bytes): Result<Proposal> {
    if |body| < 4 || |body| - 4 < body[2] then Err(Malformed)
    else
      var (transforms, foreign, _) :- DecodeTransforms(body[3], body[4 + body[2]..]);
      match ProtocolFromId(body[1])
      case None => Err(Malformed)
      case Some(protocol) => Ok(Proposal(body[0], protocol, body[4..4 + body[2]], transforms, foreign))
  }

  function DecodeProposal(data: bytes): (r: Result<(Proposal, bool, bytes)>)
    ensures r.Ok? ==> |r.value.2| < |data|
  {
    if |data| < 4 then Err(Malformed)
    else
      var length := FromBe16(data[2..4]);
      if length < 8 || |data| < length then Err(Malformed)
      else
        var p :- DecodeBody(data[4..length]);
        Ok((p, data[0] == 0, data[length..]))
  }

  function Decode(data: bytes): Result<seq<Proposal>>
    decreases |data|
  {
    if data == [] then Ok([])
    else
      var (p, last, rest) :- DecodeProposal(data);
      if last then (if rest == [] then Ok([p]) else Err(Malformed))
      else Prepend([p], Decode(rest))
  }

  method TakeAttributes(data: bytes) returns (r: Result<Option<u16>>)
    ensures r == DecodeAttributes(data, None)
  {
    var rest, bits: Option<u16> := data, None;
    while rest != []
      invariant DecodeAttributes(data, None) == DecodeAttributes(rest, bits)
      decreases |rest|
    {
      if |rest| < 4 {
        return Err(Malformed);
      }
      var format, value := FromBe16(rest[..2]), FromBe16(rest[2..4]);
      rest := rest[4..];
      if format >= 0x8000 {
        if format - 0x8000 == KEY_LENGTH {
          bits := Some(value);
        }
      } else {
        if |rest| < value {
          return Err(Malformed);
        }
        rest := rest[value..];
      }
    }
    r := Ok(bits);
  }

  method TakeTransform(reader: Reader) returns (r: Result<(Option<Transform>, bool)>)
    modifies reader
    ensures match DecodeTransform(old(reader.data))
            case Ok((t, last, rest)) => r == Ok((t, last)) && reader.data == rest
            case Err(e) => r == Err(e)
  {
    ghost var data := reader.data;
    var more :- reader.U8();
    var reserved :- reader.U8();
    var length :- reader.U16();
    assert data[2..][..2] == data[2..4];
    if length < 8 {
      return Err(Malformed);
    }
    var kind :- reader.U8();
    reserved :- reader.U8();
    var id :- reader.U16();
    assert data[6..][..2] == data[6..8];
    var field :- reader.Take(length - 8);
    assert field == data[8..length] && reader.data == data[length..];
    var bits :- TakeAttributes(field);
    var known := TypeFromId(kind);
    r := Ok((if known.Some? then Some(Transform(known.value, id, bits)) else None, more == 0));
  }

  function Before(before: seq<Transform>, foreign: bool, r: Result<(seq<Transform>, bool, bytes)>): Result<(seq<Transform>, bool, bytes)> {
    if r.Err? then r else Ok((before + r.value.0, foreign || r.value.1, r.value.2))
  }

  lemma Joins(before: seq<Transform>, foreign: bool, r: Result<(seq<Transform>, bool, bytes)>)
    ensures Before([], false, r) == r
  {
    if r.Ok? {
      assert [] + r.value.0 == r.value.0;
    }
  }

  lemma AddJoins(before: seq<Transform>, foreign: bool, one: Option<Transform>, r: Result<(seq<Transform>, bool, bytes)>)
    ensures Before(before, foreign, Add(one, r))
            == if one.Some? then Before(before + [one.value], foreign, r) else Before(before, true, r)
  {
    if r.Ok? && one.Some? {
      assert before + ([one.value] + r.value.0) == before + [one.value] + r.value.0;
    }
  }

  /** The `for` loop over the announced transforms: it ends early at one
      marked the last. */
  method TakeTransforms(reader: Reader, count: nat) returns (r: Result<(seq<Transform>, bool)>)
    modifies reader
    ensures match DecodeTransforms(count, old(reader.data))
            case Ok((transforms, foreign, rest)) => r == Ok((transforms, foreign)) && reader.data == rest
            case Err(e) => r == Err(e)
  {
    var transforms: seq<Transform>, foreign, decoded := [], false, 0;
    ghost var whole := DecodeTransforms(count, reader.data);
    Joins([], false, whole);
    while decoded < count
      invariant decoded <= count
      invariant whole == Before(transforms, foreign, DecodeTransforms(count - decoded, reader.data))
    {
      ghost var data, before, flag := reader.data, transforms, foreign;
      var one := TakeTransform(reader);
      if one.Err? {
        return Err(one.error);
      }
      var (transform, last) := one.value;
      decoded := decoded + 1;
      if transform.Some? {
        transforms := transforms + [transform.value];
      } else {
        foreign := true;
      }
      if last && decoded < count {
        return Err(Malformed);
      }
      AddJoins(before, flag, transform, DecodeTransforms(count - decoded, reader.data));
    }
    assert transforms + [] == transforms;
    r := Ok((transforms, foreign));
  }

  /** Number and protocol, the SPI, and how many transforms follow. */
  method TakeHead(body: Reader) returns (r: Result<(byte, byte, bytes, byte)>)
    modifies body
    ensures var b := old(body.data);
            if |b| < 4 || |b| - 4 < b[2] then r == Err(Malformed)
            else r == Ok((b[0], b[1], b[4..4 + b[2]], b[3])) && body.data == b[4 + b[2]..]
  {
    ghost var b := body.data;
    var number :- body.U8();
    var protocol :- body.U8();
    var spiLen :- body.U8();
    var count :- body.U8();
    assert body.data == b[4..] && spiLen == b[2];
    assert |b| - 4 >= spiLen ==> b[4..][..spiLen] == b[4..4 + spiLen] && b[4..][spiLen..] == b[4 + spiLen..];
    var spi :- body.Take(spiLen);
    r := Ok((number, protocol, spi, count));
  }

  method TakeBody(field: bytes) returns (r: Result<Proposal>)
    ensures r == DecodeBody(field)
  {
    var body := new Reader(field);
    var head :- TakeHead(body);
    var (number, protocol, spi, count) := head;
    var taken :- TakeTransforms(body, count);
    var (transforms, foreign) := taken;
    var known := ProtocolFromId(protocol);
    if known.None? {
      return Err(Malformed);
    }
    r := Ok(Proposal(number, known.value, spi, transforms, foreign));
  }

  method TakeProposal(reader: Reader) returns (r: Result<(Proposal, bool)>)
    modifies reader
    ensures match DecodeProposal(old(reader.data))
            case Ok((p, last, rest)) => r == Ok((p, last)) && reader.data == rest
            case Err(e) => r == Err(e)
  {
    ghost var data := reader.data;
    var more :- reader.U8();
    var reserved :- reader.U8();
    var length :- reader.U16();
    assert data[2..][..2] == data[2..4];
    if length < 8 {
      return Err(Malformed);
    }
    var field :- reader.Take(length - 4);
    assert field == data[4..length] && reader.data == data[length..];
    var p :- TakeBody(field);
    r := Ok((p, more == 0));
  }

  method DecodeProposals(data: bytes) returns (r: Result<seq<Proposal>>)
    ensures r == Decode(data)
  {
    var reader := new Reader(data);
    var proposals: seq<Proposal> := [];
    PrependNothing(Decode(data));
    while reader.data != []
      invariant Decode(data) == Prepend(proposals, Decode(reader.data))
      decreases |reader.data|
    {
      ghost var here := reader.data;
      var one := TakeProposal(reader);
      if one.Err? {
        return Err(one.error);
      }
      var (p, last) := one.value;
      if last {
        return if reader.data == [] then Ok(proposals + [p]) else Err(Malformed);
      }
      PrependTwice(proposals, [p], Decode(reader.data));
      proposals := proposals + [p];
    }
    assert proposals + [] == proposals;
    r := Ok(proposals);
  }

  // ---- what is encoded decodes back ----------------------------------------------------

  lemma TransformComesBack(t: Transform, last: bool, rest: bytes)
    ensures DecodeTransform(EncodeTransform(t, last) + rest) == Ok((Some(t), last, rest))
  {
    var data := EncodeTransform(t, last) + rest;
    var length: nat := if t.keyBits.Some? then 12 else 8;
    assert data[2..4] == Be16(length) && data[6..8] == Be16(t.id) && data[length..] == rest;
    if t.keyBits.Some? {
      var attribute := data[8..12];
      assert attribute[..2] == Be16(0x8000 + KEY_LENGTH) && attribute[2..4] == Be16(t.keyBits.value) && attribute[4..] == [];
      assert DecodeAttributes([], t.keyBits) == Ok(t.keyBits);
    } else {
      assert data[8..8] == [];
    }
  }

  lemma DecodeOne(count: nat, data: bytes, t: Transform, last: bool, rest: bytes)
    requires count > 0 && DecodeTransform(data) == Ok((Some(t), last, rest)) && (last ==> count == 1)
    ensures DecodeTransforms(count, data) == Add(Some(t), DecodeTransforms(count - 1, rest))
  {
  }

  lemma {:induction false} TransformsComeBack(transforms: seq<Transform>, rest: bytes)
    ensures DecodeTransforms(|transforms|, EncodeTransforms(transforms) + rest) == Ok((transforms, false, rest))
  {
    if transforms == [] {
      assert EncodeTransforms(transforms) + rest == rest;
    } else {
      var one, last := EncodeTransform(transforms[0], |transforms| == 1), |transforms| == 1;
      var tail := EncodeTransforms(transforms[1..]);
      assert EncodeTransforms(transforms) + rest == one + (tail + rest) by {
        Grouped(one, tail, rest);
      }
      TransformComesBack(transforms[0], last, tail + rest);
      TransformsComeBack(transforms[1..], rest);
      DecodeOne(|transforms|, one + (tail + rest), transforms[0], last, tail + rest);
      assert [transforms[0]] + transforms[1..] == transforms;
    }
  }

  lemma BodyLayout(p: Proposal)
    requires p.Fits()
    ensures var body := EncodeBody(p);
            && |body| >= 4 && body[0] == p.number && body[1] == p.protocol.Id() && body[2] == |p.spi| && body[3] == |p.transforms|
            && |body| - 4 >= |p.spi| && body[4..4 + |p.spi|] == p.spi && body[4 + |p.spi|..] == EncodeTransforms(p.transforms)
  {
  }

  lemma BodyComesBack(p: Proposal)
    requires p.Fits() && !p.foreign
    ensures DecodeBody(EncodeBody(p)) == Ok(p)
  {
    BodyLayout(p);
    assert DecodeTransforms(|p.transforms|, EncodeTransforms(p.transforms)) == Ok((p.transforms, false, [])) by {
      TransformsComeBack(p.transforms, []);
      assert EncodeTransforms(p.transforms) + [] == EncodeTransforms(p.transforms);
    }
    assert ProtocolFromId(p.protocol.Id()) == Some(p.protocol);
  }

  lemma ProposalComesBack(p: Proposal, last: bool, rest: bytes)
    requires p.Fits() && !p.foreign
    ensures DecodeProposal(EncodeProposal(p, last) + rest) == Ok((p, last, rest))
  {
    var data := EncodeProposal(p, last) + rest;
    var length := |EncodeBody(p)| + 4;
    assert data[2..4] == Be16(length) && data[4..length] == EncodeBody(p) && data[length..] == rest;
    BodyComesBack(p);
  }

  lemma DecodeFirst(one: bytes, p: Proposal, last: bool, rest: bytes)
    requires p.Fits() && !p.foreign && one == EncodeProposal(p, last)
    ensures Decode(one + rest) == if last then (if rest == [] then Ok([p]) else Err(Malformed)) else Prepend([p], Decode(rest))
  {
    ProposalComesBack(p, last, rest);
    assert one + rest != [];
  }

  /** An SA payload decodes to the proposals it was encoded from. */
  lemma {:induction false} ProposalsComeBack(ps: seq<Proposal>)
    requires forall p :: p in ps ==> p.Fits() && !p.foreign
    ensures Decode(Encode(ps)) == Ok(ps)
  {
    if ps != [] {
      assert ps[0] in ps;
      DecodeFirst(EncodeProposal(ps[0], |ps| == 1), ps[0], |ps| == 1, Encode(ps[1..]));
      ProposalsComeBack(ps[1..]);
      assert [ps[0]] + ps[1..] == ps;
      if |ps| == 1 {
        assert ps == [ps[0]] && Encode(ps[1..]) == [];
      } else {
        assert Prepend([ps[0]], Ok(ps[1..])) == Ok(ps);
      }
    }
  }
}
