/** The anti-replay window of an inbound SA: a shifting 64-bit word against
    the plain set of accepted numbers (RFC 4303 section 3.4.3). */
module Replay {
  import opened Bits
  import opened Bytes

  const REPLAY_WINDOW := 64

  /** Bit `n` of `bits` set: `highest - n` was received. */
  datatype Window = Window(highest: u32, bits: u64)

  const EMPTY := Window(0, 0)

  lemma {:induction false} OrBound(a: nat, b: nat, width: nat)
    requires a < Pow2(width) && b < Pow2(width)
    ensures Or(a, b) < Pow2(width)
  {
    if a != 0 && b != 0 {
      OrBound(a / 2, b / 2, width - 1);
    }
  }

  /** What `accept` does: the window after, and whether `number` is new. */
  function Accept(w: Window, number: u32): (r: (Window, bool))
  {
    Pow2Values();
    if number == 0 then (w, false)
    else if number > w.highest then
      var shift := number - w.highest;
      var moved: u64 := if shift >= REPLAY_WINDOW then 0 else Shl(w.bits, shift, 64);
      OrBound(moved, 1, 64);
      (Window(number, Or(moved, 1)), true)
    else
      var behind := w.highest - number;
      if behind >= REPLAY_WINDOW then (w, false)
      else
        var bit: u64 := Shl(1, behind, 64);
        if And(w.bits, bit) != 0 then (w, false)
        else
          OrBound(w.bits, bit, 64);
          (Window(w.highest, Or(w.bits, bit)), true)
  }

  class ReplayWindow {
    var highest: u32
    var window: u64

    function View(): Window
      reads this
    {
      Window(highest, window)
    }

    constructor ()
      ensures View() == EMPTY
    {
      highest, window := 0, 0;
    }

    method AcceptNumber(number: u32) returns (isNew: bool)
      modifies this
      ensures (View(), isNew) == Accept(old(View()), number)
    {
      if number == 0 {
        return false;
      }
      Pow2Values();
      if number > highest {
        var shift := number - highest;
        window := if shift >= REPLAY_WINDOW then 0 else Shl(window, shift, 64);
        OrBound(window, 1, 64);
        window := Or(window, 1);
        highest := number;
        return true;
      }
      var behind := highest - number;
      if behind >= REPLAY_WINDOW {
        return false;
      }
      var bit: u64 := Shl(1, behind, 64);
      if And(window, bit) != 0 {
        return false;
      }
      OrBound(window, bit, 64);
      window := Or(window, bit);
      return true;
    }
  }

  // ---- the set it stands for --------------------------------------------

  /** `h` is the largest of the accepted numbers, 0 when there is none. */
  ghost predicate IsHighest(accepted: set<nat>, h: nat)
  {
    && (h == 0 || h in accepted)
    && (forall n :: n in accepted ==> 0 < n <= h)
  }

  /** Bit `n` is set just when `highest - n` was accepted. */
  ghost predicate Refines(w: Window, accepted: set<nat>)
  {
    && IsHighest(accepted, w.highest)
    && (forall n: nat :: n < REPLAY_WINDOW ==> (Bit(w.bits, n) <==> w.highest - n in accepted))
  }

  /** When a number is taken: not zero, not taken yet, not 64 or more behind. */
  ghost predicate Takes(accepted: set<nat>, highest: nat, number: nat)
  {
    number != 0 && number !in accepted && number + REPLAY_WINDOW > highest
  }

  lemma EmptyRefines()
    ensures Refines(EMPTY, {})
  {
    forall n: nat | n < REPLAY_WINDOW ensures !Bit(0, n) {
      BitOfZero(n);
    }
  }

  lemma SmallRemainder(x: nat, m: nat)
    requires x < m
    ensures x % m == x
  {
  }

  lemma OneBit(k: nat, n: nat)
    requires k < 64
    ensures Shl(1, k, 64) == Pow2(k) && Bit(Shl(1, k, 64), n) == (n == k)
  {
    Pow2Monotone(k + 1, 64);
    assert Pow2(k) < Pow2(64);
    SmallRemainder(1 * Pow2(k), Pow2(64));
    BitOfPow2(k, n);
  }

  lemma ForwardAccepts(w: Window, number: u32)
    requires number > w.highest
    ensures var shift := number - w.highest;
            var w' := Accept(w, number).0;
            w'.highest == number && w'.bits == Or(if shift >= REPLAY_WINDOW then 0 else Shl(w.bits, shift, 64), 1)
  {
    Pow2Values();
  }

  lemma HigherIsHighest(accepted: set<nat>, h: nat, number: nat)
    requires IsHighest(accepted, h) && number > h
    ensures IsHighest(accepted + {number}, number)
  {
  }

  /** Bit `n` after the window moved by `shift`. */
  lemma ForwardBit(w: Window, accepted: set<nat>, shift: nat, n: nat)
    requires Refines(w, accepted) && shift > 0 && n < REPLAY_WINDOW
    ensures var moved := if shift >= REPLAY_WINDOW then 0 else Shl(w.bits, shift, 64);
            Bit(Or(moved, 1), n) <==> w.highest + shift - n in accepted + {w.highest + shift}
  {
    Pow2Values();
    var moved := if shift >= REPLAY_WINDOW then 0 else Shl(w.bits, shift, 64);
    BitOr(moved, 1, n);
    BitOfPow2(0, n);
    if shift >= REPLAY_WINDOW {
      BitOfZero(n);
    } else {
      BitShl(w.bits, shift, 64, n);
      assert shift <= n ==> (Bit(w.bits, n - shift) <==> w.highest - (n - shift) in accepted);
    }
  }

  lemma ForwardRefines(w: Window, accepted: set<nat>, number: u32)
    requires Refines(w, accepted) && number > w.highest
    ensures Refines(Accept(w, number).0, accepted + {number})
  {
    var shift := number - w.highest;
    var w' := Accept(w, number).0;
    ForwardAccepts(w, number);
    HigherIsHighest(accepted, w.highest, number);
    forall n: nat | n < REPLAY_WINDOW ensures Bit(w'.bits, n) <==> number - n in accepted + {number} {
      ForwardBit(w, accepted, shift, n);
    }
  }

  /** Bit `n` after the bit `behind` the highest was set. */
  lemma BehindBit(w: Window, accepted: set<nat>, behind: nat, n: nat)
    requires Refines(w, accepted) && behind < REPLAY_WINDOW && behind < w.highest && n < REPLAY_WINDOW
    ensures Bit(Or(w.bits, Shl(1, behind, 64)), n) <==> w.highest - n in accepted + {w.highest - behind}
  {
    Pow2Values();
    OneBit(behind, n);
    BitOr(w.bits, Shl(1, behind, 64), n);
  }

  lemma BehindRefines(w: Window, accepted: set<nat>, number: u32)
    requires Refines(w, accepted) && 0 < number && w.highest - REPLAY_WINDOW < number <= w.highest
    ensures Accept(w, number).1 == (number !in accepted)
    ensures number !in accepted ==> Refines(Accept(w, number).0, accepted + {number})
    ensures number in accepted ==> Accept(w, number).0 == w
  {
    Pow2Values();
    var behind := w.highest - number;
    OneBit(behind, behind);
    AndPow2(w.bits, behind);
    if number !in accepted {
      forall n: nat | n < REPLAY_WINDOW
        ensures Bit(Or(w.bits, Shl(1, behind, 64)), n) <==> w.highest - n in accepted + {number}
      {
        BehindBit(w, accepted, behind, n);
      }
    }
  }

  /** One arrival: the word and the set answer alike and stay in step. */
  lemma AcceptRefines(w: Window, accepted: set<nat>, number: u32)
    requires Refines(w, accepted)
    ensures var (w', isNew) := Accept(w, number);
            && isNew == Takes(accepted, w.highest, number)
            && Refines(w', if isNew then accepted + {number} else accepted)
            && (!isNew ==> w' == w)
  {
    if number > w.highest {
      ForwardRefines(w, accepted, number);
    } else if number != 0 && w.highest - number < REPLAY_WINDOW {
      BehindRefines(w, accepted, number);
    }
  }

  function Run(arrivals: seq<u32>): (Window, seq<bool>)
  {
    if arrivals == [] then (EMPTY, [])
    else
      var n := |arrivals| - 1;
      var (w, answers) := Run(arrivals[..n]);
      var (w', isNew) := Accept(w, arrivals[n]);
      (w', answers + [isNew])
  }

  /** The numbers the plain rule takes, in order of arrival. */
  ghost function Taken(arrivals: seq<u32>): (r: (set<nat>, nat, seq<bool>))
    ensures IsHighest(r.0, r.1)
  {
    if arrivals == [] then ({}, 0, [])
    else
      var n := |arrivals| - 1;
      var (accepted, highest, answers) := Taken(arrivals[..n]);
      var number := arrivals[n];
      if Takes(accepted, highest, number)
      then (accepted + {number}, if number > highest then number else highest, answers + [true])
      else (accepted, highest, answers + [false])
  }

  /** Over every run the shifting word answers as the plain rule does, and
      its bits are the accepted numbers. */
  lemma {:induction false} WindowIsTheSet(arrivals: seq<u32>)
    ensures Refines(Run(arrivals).0, Taken(arrivals).0)
    ensures Run(arrivals).0.highest == Taken(arrivals).1
    ensures Run(arrivals).1 == Taken(arrivals).2
  {
    if arrivals == [] {
      EmptyRefines();
    } else {
      var n := |arrivals| - 1;
      WindowIsTheSet(arrivals[..n]);
      AcceptRefines(Run(arrivals[..n]).0, Taken(arrivals[..n]).0, arrivals[n]);
    }
  }
}
