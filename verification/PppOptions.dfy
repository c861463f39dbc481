/** Configuration options of PPP (RFC 1661 section 6): type, length, data. */
module PppOptions {
  import opened Bytes

  datatype Opt = Opt(kind: byte, data: bytes) {
    predicate Fits() { |data| + 2 < 0x100 }

    function U16(): Option<u16> {
      if |data| == 2 then Some(FromBe16(data)) else None
    }

    function U32(): Option<u32> {
      if |data| == 4 then Some(FromBe32(data)) else None
    }
  }

  predicate AllFit(options: seq<Opt>) {
    forall o :: o in options ==> o.Fits()
  }

  function After(options: seq<Opt>, rest: Option<seq<Opt>>): Option<seq<Opt>> {
    if rest.Some? then Some(options + rest.value) else None
  }

  function ParseAll(data: bytes): (r: Option<seq<Opt>>)
    ensures r.Some? ==> AllFit(r.value)
  {
    if data == [] then Some([])
    else if |data| < 2 || data[1] < 2 || data[1] > |data| then None
    else After([Opt(data[0], data[2..data[1]])], ParseAll(data[data[1]..]))
  }

  function EncodeOne(o: Opt): bytes
    requires o.Fits()
  {
    [o.kind, |o.data| + 2] + o.data
  }

  function EncodeAll(options: seq<Opt>): bytes
    requires AllFit(options)
  {
    if options == [] then [] else EncodeOne(options[0]) + EncodeAll(options[1..])
  }

  lemma AfterTwice(a: seq<Opt>, b: seq<Opt>, r: Option<seq<Opt>>)
    ensures After(a, After(b, r)) == After(a + b, r)
  {
    if r.Some? {
      assert a + (b + r.value) == (a + b) + r.value;
    }
  }

  method ParseOptions(data: bytes) returns (r: Option<seq<Opt>>)
    ensures r == ParseAll(data)
  {
    var options: seq<Opt>, rest := [], data;
    assert forall x: Option<seq<Opt>> :: After([], x) == x by {
      assert forall s: seq<Opt> :: [] + s == s;
    }
    while rest != []
      invariant ParseAll(data) == After(options, ParseAll(rest))
      decreases |rest|
    {
      if |rest| < 2 {
        return None;
      }
      var length := rest[1];
      if length < 2 || length > |rest| {
        return None;
      }
      var one := Opt(rest[0], rest[2..length]);
      AfterTwice(options, [one], ParseAll(rest[length..]));
      options := options + [one];
      rest := rest[length..];
    }
    assert options + [] == options;
    r := Some(options);
  }

  method EncodeOptions(options: seq<Opt>) returns (b: bytes)
    requires AllFit(options)
    ensures b == EncodeAll(options)
  {
    b := [];
    var i := 0;
    assert options[0..] == options;
    while i < |options|
      invariant 0 <= i <= |options|
      invariant EncodeAll(options) == b + EncodeAll(options[i..])
    {
      assert options[i..][1..] == options[i + 1..];
      assert options[i] in options;
      var length: byte := |options[i].data| + 2;
      b := b + [options[i].kind];
      b := b + [length];
      b := b + options[i].data;
      i := i + 1;
    }
  }

  /** What is encoded parses back. */
  lemma {:induction false} ParsesBack(options: seq<Opt>)
    requires AllFit(options)
    ensures ParseAll(EncodeAll(options)) == Some(options)
  {
    if options != [] {
      var one, b := options[0], EncodeAll(options);
      assert b[2..b[1]] == one.data && b[b[1]..] == EncodeAll(options[1..]);
      ParsesBack(options[1..]);
      assert options == [one] + options[1..];
    }
  }

  /** And what parses is what its options encode to. */
  lemma {:induction false} EncodesBack(data: bytes)
    requires ParseAll(data).Some?
    ensures EncodeAll(ParseAll(data).value) == data
    decreases |data|
  {
    if data != [] {
      var options := ParseAll(data).value;
      EncodesBack(data[data[1]..]);
      assert options[1..] == ParseAll(data[data[1]..]).value;
      assert data == data[..2] + data[2..data[1]] + data[data[1]..];
      assert EncodeOne(options[0]) == data[..2] + data[2..data[1]];
    }
  }
}
