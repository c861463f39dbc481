/** Traffic selectors (RFC 7296 section 3.13) and their decomposition into
    CIDR blocks. */
module TrafficSelectors {
  import opened Bits
  import opened Bytes

  const MAX: u32 := 0xffff_ffff

  datatype TrafficSelector = TrafficSelector(protocol: byte, startPort: u16, endPort: u16, start: u32, end: u32)
  {
    predicate Covers(other: TrafficSelector)
    {
      && (protocol == 0 || protocol == other.protocol)
      && startPort <= other.startPort
      && endPort >= other.endPort
      && start <= other.start
      && end >= other.end
    }

    /** The traffic a selector stands for; protocol 0 is any. */
    predicate Selects(proto: byte, port: u16, address: u32)
    {
      && (protocol == 0 || protocol == proto)
      && startPort <= port <= endPort
      && start <= address <= end
    }
  }

  function HostBits(prefix: byte): nat {
    if prefix > 32 then 0 else 32 - prefix
  }

  function NetMask(prefix: byte): (mask: u32)
    ensures mask == 0x1_0000_0000 - Pow2(HostBits(prefix))
  {
    Pow2Values();
    MaskValue(32, HostBits(prefix));
    if prefix == 0 then 0 else Shl(MAX, 32 - (if prefix > 32 then 32 else prefix), 32)
  }

  lemma NetworkEnds(address: u32, bits: nat)
    requires bits <= 32
    ensures var mask := 0x1_0000_0000 - Pow2(bits);
            && 0 <= mask < 0x1_0000_0000
            && And(address, mask) == address - LowBits(address, bits) <= address
            && address <= Or(address, MAX - mask) == address - LowBits(address, bits) + Pow2(bits) - 1 < 0x1_0000_0000
  {
    Pow2Values();
    AndMask(address, 32, bits);
    OrLowOnes(address, bits);
    LowBitsRange(address, 32, bits);
  }

  /** A network, any port and protocol: a prefix past 32 is a host. */
  function Network(address: u32, prefix: byte): (n: TrafficSelector)
    ensures n.start == address - LowBits(address, HostBits(prefix)) <= address
    ensures n.end == n.start + Pow2(HostBits(prefix)) - 1 >= address
  {
    var mask := NetMask(prefix);
    NetworkEnds(address, HostBits(prefix));
    TrafficSelector(0, 0, 65535, And(address, mask), Or(address, MAX - mask))
  }

  lemma MulMonotone(u: nat, a: int, b: int)
    ensures a <= b ==> u * a <= u * b
    ensures a < b ==> u * a + u <= u * b
  {
    if a < b {
      assert u * b == u * a + u + u * (b - a - 1);
    }
  }

  /** `covers` is inclusion of traffic, for a selector that selects any. */
  lemma CoversIsInclusion(a: TrafficSelector, b: TrafficSelector)
    requires b.startPort <= b.endPort && b.start <= b.end
    ensures a.Covers(b) <==>
      forall proto: byte, port: u16, address: u32 :: b.Selects(proto, port, address) ==> a.Selects(proto, port, address)
  {
    if forall proto: byte, port: u16, address: u32 :: b.Selects(proto, port, address) ==> a.Selects(proto, port, address) {
      var proto: byte := if b.protocol != 0 then b.protocol else if a.protocol == 1 then 2 else 1;
      assert b.Selects(proto, b.startPort, b.start) && b.Selects(proto, b.endPort, b.end);
      assert a.Selects(proto, b.startPort, b.start) && a.Selects(proto, b.endPort, b.end);
    }
  }

  // ---- the blocks of a range ------------------------------------------

  /** `x` ends in `k` zero bits: it is a multiple of `2^k`. */
  predicate Aligned(x: nat, k: nat)
  {
    k == 0 || (x % 2 == 0 && Aligned(x / 2, k - 1))
  }

  datatype Block = Block(address: u32, prefix: nat)
  {
    predicate Valid() { prefix <= 32 && Aligned(address, 32 - prefix) }

    function Size(): (n: nat)
      ensures n >= 1
    {
      if prefix <= 32 then Pow2(32 - prefix) else 1
    }

    predicate Holds(x: int) { address <= x < address + Size() }
  }

  lemma {:induction false} AlignedIsMultiple(x: nat, k: nat)
    ensures Aligned(x, k) <==> x % Pow2(k) == 0
  {
    if k > 0 {
      AlignedIsMultiple(x / 2, k - 1);
      HalfOfRemainder(x, Pow2(k - 1));
    }
  }

  lemma {:induction false} Quotient(x: nat, k: nat) returns (q: nat)
    requires Aligned(x, k)
    ensures x == Pow2(k) * q
  {
    if k == 0 {
      q := x;
    } else {
      q := Quotient(x / 2, k - 1);
      assert Pow2(k) * q == 2 * (Pow2(k - 1) * q);
    }
  }

  lemma {:induction false} AlignedLess(x: nat, k: nat, j: nat)
    requires k <= j && Aligned(x, j)
    ensures Aligned(x, k)
  {
    if k > 0 {
      AlignedLess(x / 2, k - 1, j - 1);
    }
  }

  /** A block of `2^k` addresses can start at `start` and not pass `end`. */
  predicate Fits(start: nat, k: nat, end: int)
  {
    Aligned(start, k) && start + Pow2(k) - 1 <= end
  }

  /** Consecutive blocks from `lo` up to, not including, `hi`. */
  predicate Tiles(blocks: seq<Block>, lo: int, hi: int)
  {
    if blocks == [] then lo == hi
    else
      var last := blocks[|blocks| - 1];
      last.address + last.Size() == hi && Tiles(blocks[..|blocks| - 1], lo, last.address)
  }

  predicate Largest(b: Block, end: int)
  {
    && b.prefix <= 32
    && Fits(b.address, 32 - b.prefix, end)
    && (b.prefix > 0 ==> !Fits(b.address, 33 - b.prefix, end))
  }

  /** Every block is as large as its start and `end` allow. */
  predicate Greedy(blocks: seq<Block>, end: int)
  {
    forall i :: 0 <= i < |blocks| ==> Largest(blocks[i], end)
  }

  predicate Held(blocks: seq<Block>, x: int)
  {
    exists i :: 0 <= i < |blocks| && blocks[i].Holds(x)
  }

  /** What `networks` answers for the range `lo` to `end`. */
  predicate IsDecomposition(blocks: seq<Block>, lo: int, end: int)
  {
    if lo > end then blocks == [] else Tiles(blocks, lo, end + 1) && Greedy(blocks, end)
  }

  method Networks(selector: TrafficSelector) returns (blocks: seq<Block>)
    ensures IsDecomposition(blocks, selector.start, selector.end)
  {
    blocks := [];
    var start: int, end: int := selector.start, selector.end;
    while start <= end
      invariant 0 <= start <= end + 1 || (blocks == [] && start == selector.start)
      invariant Tiles(blocks, selector.start, start) && Greedy(blocks, end)
      invariant selector.start > end ==> blocks == []
    {
      var prefix := 32;
      while prefix > 0
        invariant 0 <= prefix <= 32
        invariant Fits(start, 32 - prefix, end)
      {
        var size := Pow2(33 - prefix);
        AlignedIsMultiple(start, 33 - prefix);
        if start % size != 0 || start + size - 1 > end {
          break;
        }
        prefix := prefix - 1;
      }
      var size := Pow2(32 - prefix);
      var block := Block(start, prefix);
      assert (blocks + [block])[..|blocks|] == blocks;
      blocks := blocks + [block];
      start := start + size;
    }
  }

  // ---- exact ----------------------------------------------------------

  ghost function Holder(cover: seq<Block>, x: int): (i: nat)
    requires Held(cover, x)
    ensures i < |cover| && cover[i].Holds(x)
  {
    var i :| 0 <= i < |cover| && cover[i].Holds(x);
    i
  }

  /** The blocks lie between `lo` and `hi`, apart and in order, and hold
      every address between. */
  lemma {:induction false} TilesExactly(blocks: seq<Block>, lo: int, hi: int)
    requires Tiles(blocks, lo, hi)
    ensures lo <= hi && (blocks == [] <==> lo == hi)
    ensures forall i :: 0 <= i < |blocks| ==> lo <= blocks[i].address && blocks[i].address + blocks[i].Size() <= hi
    ensures forall i, j :: 0 <= i < j < |blocks| ==> blocks[i].address + blocks[i].Size() <= blocks[j].address
    ensures forall x :: lo <= x < hi ==> Held(blocks, x)
  {
    if blocks != [] {
      var n := |blocks| - 1;
      var init := blocks[..n];
      TilesExactly(init, lo, blocks[n].address);
      forall x | lo <= x < hi ensures Held(blocks, x) {
        if x >= blocks[n].address {
          assert blocks[n].Holds(x);
        } else {
          assert Held(init, x);
          assert blocks[Holder(init, x)].Holds(x);
        }
      }
    }
  }

  /** `networks` answers aligned blocks, in order and apart, whose union is
      exactly the range. */
  lemma DecompositionIsExact(blocks: seq<Block>, lo: u32, end: u32)
    requires IsDecomposition(blocks, lo, end)
    ensures forall i :: 0 <= i < |blocks| ==> blocks[i].Valid()
    ensures forall i, j :: 0 <= i < j < |blocks| ==> blocks[i].address + blocks[i].Size() <= blocks[j].address
    ensures forall i, j, x :: 0 <= i < j < |blocks| && blocks[i].Holds(x) ==> !blocks[j].Holds(x)
    ensures forall x :: Held(blocks, x) <==> lo <= x <= end
  {
    if lo <= end {
      TilesExactly(blocks, lo, end + 1);
    }
  }

  // ---- shortest -------------------------------------------------------

  lemma SmallerFits(start: nat, k: nat, j: nat, end: int)
    requires k <= j && Fits(start, j, end)
    ensures Fits(start, k, end)
  {
    AlignedLess(start, k, j);
    Pow2Monotone(k, j);
  }

  lemma NoLargerFits(b: Block, end: int, k: nat)
    requires Largest(b, end) && Fits(b.address, k, end) && k <= 32
    ensures k <= 32 - b.prefix
  {
    if k > 32 - b.prefix {
      SmallerFits(b.address, 33 - b.prefix, k, end);
    }
  }

  lemma NestedIntervals(u: nat, m: nat, qa: int, qb: int, x: int)
    requires u * qa <= x < u * qa + u * m && u * qb <= x < u * qb + u
    ensures u * qa <= u * qb && u * qb + u <= u * qa + u * m
  {
    assert u * qa + u * m == u * (qa + m);
    if qb < qa {
      MulMonotone(u, qb, qa);
    } else if qa + m <= qb {
      MulMonotone(u, qa + m, qb);
    } else {
      MulMonotone(u, qa, qb);
      MulMonotone(u, qb, qa + m);
    }
  }

  /** Two blocks that share an address are nested. */
  lemma Nested(a: Block, b: Block, x: int)
    requires a.Valid() && b.Valid() && a.Holds(x) && b.Holds(x) && b.prefix >= a.prefix
    ensures a.address <= b.address && b.address + b.Size() <= a.address + a.Size()
  {
    Pow2Sum(32 - b.prefix, b.prefix - a.prefix);
    AlignedLess(a.address, 32 - b.prefix, 32 - a.prefix);
    var qa := Quotient(a.address, 32 - b.prefix);
    var qb := Quotient(b.address, 32 - b.prefix);
    NestedIntervals(b.Size(), Pow2(b.prefix - a.prefix), qa, qb, x);
  }

  /** Exactly the addresses `lo` to `end`, by CIDR blocks in any order. */
  ghost predicate Union(cover: seq<Block>, lo: int, end: int)
  {
    && (forall i :: 0 <= i < |cover| ==> cover[i].Valid())
    && (forall x :: Held(cover, x) <==> lo <= x <= end)
  }

  /** A block inside the range holds the first address of at most one block
      of the decomposition. */
  lemma HoldsOneStart(blocks: seq<Block>, lo: u32, end: u32, c: Block, i: nat, j: nat)
    requires IsDecomposition(blocks, lo, end) && i < j < |blocks|
    requires c.Valid() && lo <= c.address && c.address + c.Size() - 1 <= end
    requires c.Holds(blocks[i].address)
    ensures c.address + c.Size() <= blocks[j].address
  {
    TilesExactly(blocks, lo, end + 1);
    assert Held(blocks, c.address);
    var m := Holder(blocks, c.address);
    assert m <= i;
    assert Largest(blocks[m], end);
    if c.prefix < blocks[m].prefix {
      Nested(c, blocks[m], c.address);
      NoLargerFits(blocks[m], end, 32 - c.prefix);
    } else {
      Nested(blocks[m], c, c.address);
    }
  }

  lemma {:induction false} Pigeonhole(holes: seq<nat>, n: nat)
    requires forall i :: 0 <= i < |holes| ==> holes[i] < n
    requires forall i, j :: 0 <= i < j < |holes| ==> holes[i] != holes[j]
    ensures |holes| <= n
  {
    if holes == [] {
      return;
    }
    assert holes[0] < n;
    if k :| 0 <= k < |holes| && holes[k] == n - 1 {
      Pigeonhole(holes[..k] + holes[k + 1..], n - 1);
    } else {
      Pigeonhole(holes, n - 1);
    }
  }

  lemma InsideUnion(cover: seq<Block>, lo: u32, end: u32, i: nat)
    requires Union(cover, lo, end) && i < |cover|
    ensures lo <= cover[i].address && cover[i].address + cover[i].Size() - 1 <= end
  {
    var c := cover[i];
    assert c.Holds(c.address) && c.Holds(c.address + c.Size() - 1);
    assert Held(cover, c.address) && Held(cover, c.address + c.Size() - 1);
  }

  /** No list of CIDR blocks with the same union is shorter. */
  lemma DecompositionIsShortest(blocks: seq<Block>, lo: u32, end: u32, cover: seq<Block>)
    requires IsDecomposition(blocks, lo, end) && Union(cover, lo, end)
    ensures |blocks| <= |cover|
  {
    if lo <= end {
      DecompositionIsExact(blocks, lo, end);
      TilesExactly(blocks, lo, end + 1);
      forall i | 0 <= i < |blocks| ensures Held(cover, blocks[i].address) {
        assert blocks[i].Holds(blocks[i].address);
      }
      var holes := seq(|blocks|, i requires 0 <= i < |blocks| => Holder(cover, blocks[i].address));
      forall i, j | 0 <= i < j < |blocks| ensures holes[i] != holes[j] {
        var c := cover[holes[i]];
        InsideUnion(cover, lo, end, holes[i]);
        HoldsOneStart(blocks, lo, end, c, i, j);
      }
      Pigeonhole(holes, |cover|);
    }
  }

  lemma {:induction false} MaskedIsAligned(x: nat, k: nat)
    ensures LowBits(x, k) <= x && Aligned(x - LowBits(x, k), k)
  {
    if k > 0 {
      MaskedIsAligned(x / 2, k - 1);
    }
  }

  lemma NetworkRange(address: u32, prefix: byte)
    requires prefix <= 32
    ensures var n := Network(address, prefix);
            && n.start == And(address, NetMask(prefix))
            && Aligned(n.start, 32 - prefix)
            && n.end + 1 == n.start + Pow2(32 - prefix)
            && n.start <= address <= n.end
  {
    Pow2Values();
    AndMask(address, 32, 32 - prefix);
    MaskedIsAligned(address, 32 - prefix);
  }

  lemma TwiceAsLarge(k: nat, j: nat)
    requires k < j
    ensures Pow2(k) < Pow2(j)
  {
    Pow2Monotone(k + 1, j);
  }

  lemma WholeRange(b: Block, lo: u32, end: u32, prefix: nat)
    requires prefix <= 32 && Fits(lo, 32 - prefix, end) && end + 1 == lo + Pow2(32 - prefix)
    requires Largest(b, end) && b.address == lo
    ensures b == Block(lo, prefix) && b.Size() == end - lo + 1
  {
    NoLargerFits(b, end, 32 - prefix);
    if b.prefix < prefix {
      TwiceAsLarge(32 - prefix, 32 - b.prefix);
    }
  }

  lemma OneBlock(blocks: seq<Block>, lo: u32, end: u32, prefix: nat)
    requires prefix <= 32 && Fits(lo, 32 - prefix, end) && end + 1 == lo + Pow2(32 - prefix)
    requires IsDecomposition(blocks, lo, end)
    ensures blocks == [Block(lo, prefix)]
  {
    TilesExactly(blocks, lo, end + 1);
    assert Held(blocks, lo);
    var first := Holder(blocks, lo);
    assert Largest(blocks[first], end);
    WholeRange(blocks[first], lo, end, prefix);
    var last := |blocks| - 1;
    TilesExactly(blocks[..last], lo, blocks[last].address);
  }

  /** `networks` of a network is that network: the masked address, the same
      prefix. */
  lemma NetworkIsOneBlock(address: u32, prefix: byte, blocks: seq<Block>)
    requires prefix <= 32
    requires IsDecomposition(blocks, Network(address, prefix).start, Network(address, prefix).end)
    ensures blocks == [Block(And(address, NetMask(prefix)), prefix)]
    ensures blocks[0].Holds(address)
  {
    NetworkRange(address, prefix);
    OneBlock(blocks, Network(address, prefix).start, Network(address, prefix).end, prefix);
  }
}
