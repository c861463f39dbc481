/** vici packets: a 32-bit length, a type, an optional name and message. */
module ViciPacket {
  import opened Bytes
  import opened ViciMessage

  datatype Packet =
    | CmdRequest(name: bytes, message: Tree)
    | CmdResponse(message: Tree)
    | CmdUnknown
    | EventRegister(name: bytes)
    | EventUnregister(name: bytes)
    | EventConfirm
    | EventUnknown
    | Event(name: bytes, message: Tree)
  {
    function Kind(): byte {
      match this
      case CmdRequest(_, _) => 0
      case CmdResponse(_) => 1
      case CmdUnknown => 2
      case EventRegister(_) => 3
      case EventUnregister(_) => 4
      case EventConfirm => 5
      case EventUnknown => 6
      case Event(_, _) => 7
    }

    predicate HasName() { CmdRequest? || EventRegister? || EventUnregister? || Event? }

    predicate HasMessage() { CmdRequest? || CmdResponse? || Event? }

  }

  function EncodeName(name: bytes): Result<bytes> {
    if 1 <= |name| < 0x100 then Ok(PutName(name)) else Err(TooLong)
  }

  function EncodeBody(p: Packet): Result<bytes> {
    var name :- if p.HasName() then EncodeName(p.name) else Ok([]);
    var message :- if p.HasMessage() then Encode(p.message) else Ok([]);
    Ok([p.Kind()] + name + message)
  }

  function EncodePacket(p: Packet): Result<bytes> {
    var body :- EncodeBody(p);
    if |body| > MESSAGE_SIZE_MAX then Err(TooLong) else Ok(Be32(|body|) + body)
  }

  /** A packet body; what follows a packet without a message is ignored. */
  function DecodePacket(body: bytes): Result<Packet> {
    if body == [] then Err(Malformed)
    else
      var kind, rest := body[0], body[1..];
      if kind == 0 then
        var (name, after) :- TakeName(rest);
        var message :- Decode(after);
        Ok(CmdRequest(name, message))
      else if kind == 1 then
        var message :- Decode(rest);
        Ok(CmdResponse(message))
      else if kind == 2 then Ok(CmdUnknown)
      else if kind == 3 then
        var (name, _) :- TakeName(rest);
        Ok(EventRegister(name))
      else if kind == 4 then
        var (name, _) :- TakeName(rest);
        Ok(EventUnregister(name))
      else if kind == 5 then Ok(EventConfirm)
      else if kind == 6 then Ok(EventUnknown)
      else if kind == 7 then
        var (name, after) :- TakeName(rest);
        var message :- Decode(after);
        Ok(Event(name, message))
      else Err(Malformed)
  }

  predicate Shallow(p: Packet) { p.HasMessage() ==> Depth(p.message) <= MAX_DEPTH }

  /** The parts of a body, as the decoder takes them off. */
  ghost predicate Parts(p: Packet, body: bytes, message: bytes) {
    && body != [] && body[0] == p.Kind()
    && (if p.HasName() then TakeName(body[1..]) == Ok((p.name, message)) else body[1..] == message)
    && (p.HasMessage() ==> (Decode(message) == Ok(p.message) <==> Shallow(p)))
  }

  lemma BodyIs(p: Packet)
    requires EncodeBody(p).Ok?
    ensures var body, message := EncodeBody(p).value, if p.HasMessage() then Print(p.message) else [];
            && body != [] && body[0] == p.Kind()
            && body[1..] == (if p.HasName() then PutName(p.name) + message else message)
            && (p.HasMessage() ==> Encode(p.message) == Ok(message))
  {
  }

  lemma BodyHasParts(p: Packet)
    requires EncodeBody(p).Ok?
    ensures Parts(p, EncodeBody(p).value, if p.HasMessage() then Print(p.message) else [])
  {
    BodyIs(p);
    if p.HasName() {
      TakesName(p.name, if p.HasMessage() then Print(p.message) else []);
    }
    if p.HasMessage() {
      TreesSurvive(p.message);
    }
  }

  lemma PartsDecode(p: Packet, body: bytes, message: bytes)
    requires Parts(p, body, message)
    ensures DecodePacket(body) == Ok(p) <==> Shallow(p)
  {
  }

  /** A packet that is sent has a size from 1 to the limit before it, and
      comes back from its body if and only if its message nests at most 64
      levels. */
  lemma PacketsSurvive(p: Packet)
    requires EncodePacket(p).Ok?
    ensures var b := EncodePacket(p).value;
            && |b| >= 5 && FromBe32(b[..4]) == |b| - 4 <= MESSAGE_SIZE_MAX
            && (DecodePacket(b[4..]) == Ok(p) <==> Shallow(p))
  {
    var b := EncodePacket(p).value;
    var body := EncodeBody(p).value;
    assert b[..4] == Be32(|body|) && b[4..] == body;
    Be32RoundTrip(|body|);
    BodyHasParts(p);
    PartsDecode(p, body, if p.HasMessage() then Print(p.message) else []);
  }
}
