/**
 Single bits of natural numbers. The debugger's `&^=` and `|=` updates are
 written as sequences of `SetBit`.
 */
module Bits {
  import opened Bytes

  type BitValue = v: int | v == 0 || v == 1

  /** Bit n of x. */
  function Bit(x: nat, n: nat): BitValue {
    if n == 0 then x % 2 else Bit(x / 2, n - 1)
  }

  /** x with bit n replaced by v. */
  function SetBit(x: nat, n: nat, v: BitValue): nat {
    if n == 0 then x - x % 2 + v else 2 * SetBit(x / 2, n - 1, v) + x % 2
  }

  lemma {:induction false} BitSetBit(x: nat, n: nat, v: BitValue, m: nat)
    ensures Bit(SetBit(x, n, v), m) == if m == n then v else Bit(x, m)
  {
    if n != 0 && m != 0 {
      BitSetBit(x / 2, n - 1, v, m - 1);
      assert SetBit(x, n, v) / 2 == SetBit(x / 2, n - 1, v);
    }
  }

  lemma {:induction false} SetBitBound(x: nat, n: nat, v: BitValue, w: nat)
    requires n < w && x < Pow2(w)
    ensures SetBit(x, n, v) < Pow2(w)
  {
    if n != 0 {
      SetBitBound(x / 2, n - 1, v, w - 1);
    }
  }

  lemma {:induction false} BitOfZero(n: nat)
    ensures Bit(0, n) == 0
  {
    if n != 0 {
      BitOfZero(n - 1);
    }
  }

  /** Numbers below 2^w with the same w low bits are equal. */
  lemma {:induction false} BitsDetermine(x: nat, y: nat, w: nat)
    requires x < Pow2(w) && y < Pow2(w)
    requires forall n :: 0 <= n < w ==> Bit(x, n) == Bit(y, n)
    ensures x == y
  {
    if w != 0 {
      assert Bit(x, 0) == Bit(y, 0);
      forall n | 0 <= n < w - 1
        ensures Bit(x / 2, n) == Bit(y / 2, n)
      {
        assert Bit(x, n + 1) == Bit(y, n + 1);
      }
      BitsDetermine(x / 2, y / 2, w - 1);
    }
  }

  // ---------------------------------------------------------------- and, or, xor

  datatype Gate = AndGate | OrGate | XorGate

  /** Bit by bit. */
  function Bitwise(g: Gate, x: nat, y: nat): nat
    decreases x + y
  {
    if x == 0 && y == 0 then 0 else 2 * Bitwise(g, x / 2, y / 2) + BitOp(g, x % 2, y % 2)
  }

  function BitOp(g: Gate, x: BitValue, y: BitValue): BitValue {
    if g.AndGate? then x * y else if g.OrGate? then (if x == 1 then 1 else y) else (if x == y then 0 else 1)
  }

  lemma {:induction false} BitwiseBits(g: Gate, x: nat, y: nat, n: nat)
    ensures Bit(Bitwise(g, x, y), n) == BitOp(g, Bit(x, n), Bit(y, n))
    decreases x + y
  {
    if x == 0 && y == 0 {
      BitOfZero(n);
    } else if n > 0 {
      BitwiseBits(g, x / 2, y / 2, n - 1);
      assert Bitwise(g, x, y) / 2 == Bitwise(g, x / 2, y / 2);
    }
  }

  lemma {:induction false} OrZero(y: nat)
    ensures Bitwise(OrGate, 0, y) == y
    decreases y
  {
    if y > 0 {
      OrZero(y / 2);
    }
  }

  /** Or-ing in bits above those of x adds them. */
  lemma {:induction false} OrAbove(x: nat, w: nat, k: nat)
    requires x < Pow2(w)
    ensures Bitwise(OrGate, x, Pow2(w) * k) == x + Pow2(w) * k
    decreases w
  {
    if w == 0 {
      OrZero(k);
    } else {
      var half := Pow2(w - 1) * k;
      assert Pow2(w) * k == 2 * half;
      OrAbove(x / 2, w - 1, k);
    }
  }
}
