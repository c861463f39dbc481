/** Unsigned machine words as natural numbers: the bitwise operators the
    sources use, defined bit by bit, and what each does to a single bit. */
module Bits {

  function Pow2(n: nat): (r: nat)
    ensures r >= 1
  {
    if n == 0 then 1 else 2 * Pow2(n - 1)
  }

  /** Bit `n` of `w`. */
  predicate Bit(w: nat, n: nat)
  {
    if n == 0 then w % 2 == 1 else Bit(w / 2, n - 1)
  }

  /** `a & b` */
  function And(a: nat, b: nat): nat
  {
    if a == 0 || b == 0 then 0
    else 2 * And(a / 2, b / 2) + (if a % 2 == 1 && b % 2 == 1 then 1 else 0)
  }

  /** `a | b` */
  function Or(a: nat, b: nat): nat
    decreases a + b
  {
    if a == 0 then b else if b == 0 then a
    else 2 * Or(a / 2, b / 2) + (if a % 2 == 1 || b % 2 == 1 then 1 else 0)
  }

  /** `w << s` on words of `width` bits: what leaves the word is lost. */
  function Shl(w: nat, s: nat, width: nat): nat
  {
    (w * Pow2(s)) % Pow2(width)
  }

  lemma {:induction false} Pow2Sum(a: nat, b: nat)
    ensures Pow2(a + b) == Pow2(a) * Pow2(b)
  {
    if a > 0 {
      Pow2Sum(a - 1, b);
    }
  }

  lemma Pow2Monotone(a: nat, b: nat)
    requires a <= b
    ensures Pow2(a) <= Pow2(b)
  {
  }

  lemma Pow2Values()
    ensures Pow2(16) == 0x1_0000 && Pow2(32) == 0x1_0000_0000 && Pow2(64) == 0x1_0000_0000_0000_0000
  {
    assert Pow2(4) == 16;
    Pow2Sum(4, 4);
    Pow2Sum(8, 8);
    Pow2Sum(16, 16);
    Pow2Sum(32, 32);
  }

  lemma {:induction false} BitOfZero(n: nat)
    ensures !Bit(0, n)
  {
    if n > 0 {
      BitOfZero(n - 1);
    }
  }

  lemma {:induction false} BitOr(a: nat, b: nat, n: nat)
    ensures Bit(Or(a, b), n) == (Bit(a, n) || Bit(b, n))
  {
    BitOfZero(n);
    if a != 0 && b != 0 && n > 0 {
      assert Or(a, b) / 2 == Or(a / 2, b / 2);
      BitOr(a / 2, b / 2, n - 1);
    }
  }

  lemma {:induction false} BitOfPow2(k: nat, n: nat)
    ensures Bit(Pow2(k), n) == (k == n)
  {
    if n == 0 {
    } else if k == 0 {
      BitOfZero(n - 1);
    } else {
      BitOfPow2(k - 1, n - 1);
    }
  }

  /** Testing one bit with a mask. */
  lemma {:induction false} AndPow2(w: nat, k: nat)
    ensures And(w, Pow2(k)) == if Bit(w, k) then Pow2(k) else 0
  {
    if w == 0 {
      BitOfZero(k);
    } else if k == 0 {
      assert And(w / 2, 0) == 0;
    } else {
      AndPow2(w / 2, k - 1);
    }
  }

  lemma {:induction false} BitOfProduct(w: nat, s: nat, n: nat)
    ensures Bit(w * Pow2(s), n) == (s <= n && Bit(w, n - s))
  {
    if s > 0 {
      var half := w * Pow2(s - 1);
      assert w * Pow2(s) == 2 * half;
      if n > 0 {
        BitOfProduct(w, s - 1, n - 1);
      }
    }
  }

  lemma BitStep(half: nat, last: nat, n: nat)
    requires last < 2
    ensures Bit(2 * half + last, n) == if n == 0 then last == 1 else Bit(half, n - 1)
  {
    assert (2 * half + last) / 2 == half && (2 * half + last) % 2 == last;
  }

  lemma Multiple(m: nat, d: int)
    requires d >= 1
    ensures m * d >= m
  {
    assert m * d == m + m * (d - 1);
  }

  lemma RemainderUnique(x: int, m: nat, q: int, r: nat)
    requires x == m * q + r && r < m
    ensures x % m == r && x / m == q
  {
    var q', r' := x / m, x % m;
    assert x == m * q' + r';
    if q' > q {
      Multiple(m, q' - q);
    } else if q' < q {
      Multiple(m, q - q');
    }
  }

  lemma HalfOfRemainder(x: nat, m: nat)
    requires m > 0
    ensures x % (2 * m) == 2 * ((x / 2) % m) + x % 2
  {
    var q, r := x / (2 * m), x % (2 * m);
    assert x == 2 * (m * q) + r;
    assert x / 2 == m * q + r / 2;
    RemainderUnique(x / 2, m, q, r / 2);
  }

  lemma {:induction false} BitOfRemainder(x: nat, width: nat, n: nat)
    ensures Bit(x % Pow2(width), n) == (n < width && Bit(x, n))
  {
    if width == 0 {
      BitOfZero(n);
    } else {
      HalfOfRemainder(x, Pow2(width - 1));
      BitStep((x / 2) % Pow2(width - 1), x % 2, n);
      if n > 0 {
        BitOfRemainder(x / 2, width - 1, n - 1);
      }
    }
  }

  lemma BitShl(w: nat, s: nat, width: nat, n: nat)
    ensures Bit(Shl(w, s, width), n) == (s <= n < width && Bit(w, n - s))
  {
    BitOfRemainder(w * Pow2(s), width, n);
    BitOfProduct(w, s, n);
  }

  /** The network mask: `k` low zeros in a word of `width` bits. */
  lemma MaskValue(width: nat, k: nat)
    requires k <= width
    ensures Pow2(k) <= Pow2(width)
    ensures Shl(Pow2(width) - 1, k, width) == Pow2(width) - Pow2(k)
  {
    Pow2Monotone(k, width);
    var all := Pow2(width);
    assert (all - 1) * Pow2(k) == all * (Pow2(k) - 1) + (all - Pow2(k));
    RemainderUnique((all - 1) * Pow2(k), all, Pow2(k) - 1, all - Pow2(k));
  }

  /** The `k` low bits of `b`. */
  function LowBits(b: nat, k: nat): nat
  {
    if k == 0 then 0 else 2 * LowBits(b / 2, k - 1) + b % 2
  }

  lemma {:induction false} LowBitsRange(b: nat, width: nat, k: nat)
    requires k <= width && b < Pow2(width)
    ensures LowBits(b, k) < Pow2(k) && LowBits(b, k) <= b
    ensures b - LowBits(b, k) + Pow2(k) <= Pow2(width)
  {
    if k > 0 {
      LowBitsRange(b / 2, width - 1, k - 1);
    }
  }

  lemma AndStep(a: nat, half: nat, last: nat)
    requires last < 2
    ensures And(a, 2 * half + last) == 2 * And(a / 2, half) + (if last == 1 then a % 2 else 0)
  {
    assert (2 * half + last) / 2 == half && (2 * half + last) % 2 == last;
  }

  lemma {:induction false} AndAllOnes(b: nat, width: nat)
    requires b < Pow2(width)
    ensures And(b, Pow2(width) - 1) == b
  {
    if width > 0 {
      AndAllOnes(b / 2, width - 1);
      AndStep(b, Pow2(width - 1) - 1, 1);
    }
  }

  lemma {:induction false} AndMask(b: nat, width: nat, k: nat)
    requires k <= width && b < Pow2(width)
    ensures Pow2(k) <= Pow2(width)
    ensures And(b, Pow2(width) - Pow2(k)) == b - LowBits(b, k)
    decreases width
  {
    Pow2Monotone(k, width);
    if k == 0 {
      AndAllOnes(b, width);
    } else {
      AndMask(b / 2, width - 1, k - 1);
      AndStep(b, Pow2(width - 1) - Pow2(k - 1), 0);
    }
  }

  lemma OrStep(a: nat, half: nat)
    ensures Or(a, 2 * half + 1) == 2 * Or(a / 2, half) + 1
  {
    assert (2 * half + 1) / 2 == half;
  }

  lemma {:induction false} OrLowOnes(b: nat, k: nat)
    ensures Or(b, Pow2(k) - 1) == b - LowBits(b, k) + (Pow2(k) - 1)
  {
    if k > 0 {
      OrLowOnes(b / 2, k - 1);
      OrStep(b, Pow2(k - 1) - 1);
    }
  }
}
