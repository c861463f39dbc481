/** Bytes, big-endian fields, and the cursor the decoders read with. */
module Bytes {

  type byte = n: nat | n < 0x100
  type u16 = n: nat | n < 0x1_0000
  type u32 = n: nat | n < 0x1_0000_0000
  type u64 = n: nat | n < 0x1_0000_0000_0000_0000
  type bytes = seq<byte>

  datatype Option<+T> = None | Some(value: T)

  /** Malformed: what a peer sent cannot be parsed. Crypto: it fails to
      authenticate, or a key has the wrong size. TooLong: a field of ours
      does not hold the value. */
  datatype Error = Malformed | Crypto | TooLong

  datatype Result<+T> = Ok(value: T) | Err(error: Error) {
    predicate IsFailure() {
      Err?
    }

    function PropagateFailure<U>(): Result<U>
      requires Err?
    {
      Err(error)
    }

    function Extract(): T
      requires Ok?
    {
      value
    }
  }

  /** What was read before, then what the rest reads as. */
  function Prepend<T>(items: seq<T>, r: Result<seq<T>>): Result<seq<T>> {
    if r.Ok? then Ok(items + r.value) else r
  }

  lemma PrependNothing<T>(r: Result<seq<T>>)
    ensures Prepend([], r) == r
  {
    if r.Ok? {
      assert [] + r.value == r.value;
    }
  }

  lemma PrependTwice<T>(a: seq<T>, b: seq<T>, r: Result<seq<T>>)
    ensures Prepend(a, Prepend(b, r)) == Prepend(a + b, r)
  {
    if r.Ok? {
      assert a + (b + r.value) == (a + b) + r.value;
    }
  }

  /** Pieces of bytes, one after another. */
  function Joined(chunks: seq<bytes>): bytes {
    if chunks == [] then [] else chunks[0] + Joined(chunks[1..])
  }

  lemma Grouped(a: bytes, b: bytes, c: bytes)
    ensures a + b + c == a + (b + c)
  {
  }

  function Be16(n: u16): (b: seq<byte>)
    ensures |b| == 2
  {
    [n / 0x100, n % 0x100]
  }

  function Be32(n: u32): (b: seq<byte>)
    ensures |b| == 4
  {
    Be16(n / 0x1_0000) + Be16(n % 0x1_0000)
  }

  function Be64(n: u64): (b: seq<byte>)
    ensures |b| == 8
  {
    Be32(n / 0x1_0000_0000) + Be32(n % 0x1_0000_0000)
  }

  function FromBe16(b: seq<byte>): u16
    requires |b| == 2
  {
    (b[0] as int) * 0x100 + b[1] as int
  }

  function FromBe32(b: seq<byte>): u32
    requires |b| == 4
  {
    (FromBe16(b[..2]) as int) * 0x1_0000 + FromBe16(b[2..]) as int
  }

  function FromBe64(b: seq<byte>): u64
    requires |b| == 8
  {
    (FromBe32(b[..4]) as int) * 0x1_0000_0000 + FromBe32(b[4..]) as int
  }

  lemma Be32RoundTrip(n: u32)
    ensures FromBe32(Be32(n)) == n
  {
    assert Be32(n)[..2] == Be16(n / 0x1_0000);
    assert Be32(n)[2..] == Be16(n % 0x1_0000);
  }

  lemma Be64RoundTrip(n: u64)
    ensures FromBe64(Be64(n)) == n
  {
    assert Be64(n)[..4] == Be32(n / 0x1_0000_0000);
    assert Be64(n)[4..] == Be32(n % 0x1_0000_0000);
    Be32RoundTrip(n / 0x1_0000_0000);
    Be32RoundTrip(n % 0x1_0000_0000);
  }

  lemma FromBe16RoundTrip(b: seq<byte>)
    requires |b| == 2
    ensures Be16(FromBe16(b)) == b
  {
  }

  lemma FromBe32RoundTrip(b: seq<byte>)
    requires |b| == 4
    ensures Be32(FromBe32(b)) == b
  {
    FromBe16RoundTrip(b[..2]);
    FromBe16RoundTrip(b[2..]);
  }

  lemma FromBe64RoundTrip(b: seq<byte>)
    requires |b| == 8
    ensures Be64(FromBe64(b)) == b
  {
    FromBe32RoundTrip(b[..4]);
    FromBe32RoundTrip(b[4..]);
  }

  function Repeat(b: byte, n: nat): (s: seq<byte>)
    ensures |s| == n && forall i :: 0 <= i < n ==> s[i] == b
  {
    seq(n, _ => b)
  }

  /** A cursor over received bytes. */
  class Reader {
    var data: seq<byte>

    constructor (data: seq<byte>)
      ensures this.data == data
    {
      this.data := data;
    }

    method Take(len: nat) returns (r: Result<seq<byte>>)
      modifies this
      ensures |old(data)| < len ==> r == Err(Malformed) && data == old(data)
      ensures |old(data)| >= len ==> r == Ok(old(data)[..len]) && data == old(data)[len..]
    {
      if |data| < len {
        return Err(Malformed);
      }
      r := Ok(data[..len]);
      data := data[len..];
    }

    method U8() returns (r: Result<byte>)
      modifies this
      ensures |old(data)| < 1 ==> r == Err(Malformed) && data == old(data)
      ensures |old(data)| >= 1 ==> r == Ok(old(data)[0]) && data == old(data)[1..]
    {
      var b := Take(1);
      r := if b.Ok? then Ok(b.value[0]) else Err(b.error);
    }

    method U16() returns (r: Result<u16>)
      modifies this
      ensures |old(data)| < 2 ==> r == Err(Malformed) && data == old(data)
      ensures |old(data)| >= 2 ==> r == Ok(FromBe16(old(data)[..2])) && data == old(data)[2..]
    {
      var b := Take(2);
      r := if b.Ok? then Ok(FromBe16(b.value)) else Err(b.error);
    }
  }
}
