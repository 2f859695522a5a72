/**
 Bytes, 64-bit words and little-endian encoding.

 Machine integers are mathematical integers in the machine's range; every
 wrap-around of the debugger's Go code is written out with `Wrap64` or
 `Signed64`.
 */
module Bytes {

  const TWO63: int := 0x8000_0000_0000_0000
  const TWO64: int := 0x1_0000_0000_0000_0000

  type Byte = b: int | 0 <= b < 256
  type U64 = x: int | 0 <= x < TWO64
  type I64 = x: int | -TWO63 <= x < TWO63

  /** Conversion of any integer to uint64. */
  function Wrap64(x: int): U64 {
    x % TWO64
  }

  /** Reinterpretation of a uint64 as int64. */
  function Signed64(x: U64): I64 {
    if x < TWO63 then x else x - TWO64
  }

  /** Subtraction of uint64s. */
  function Minus64(a: U64, b: U64): U64 {
    if a >= b then a - b else a - b + TWO64
  }

  /** 2 to the power n. */
  function Pow2(n: nat): (p: int)
    ensures p >= 1
  {
    if n == 0 then 1 else 2 * Pow2(n - 1)
  }

  lemma {:induction false} Pow2Add(m: nat, n: nat)
    ensures Pow2(m + n) == Pow2(m) * Pow2(n)
  {
    if m != 0 {
      Pow2Add(m - 1, n);
      assert Pow2(m + n) == 2 * Pow2(m - 1 + n);
    }
  }

  lemma {:induction false} Pow2Monotone(m: nat, n: nat)
    requires m <= n
    ensures Pow2(m) <= Pow2(n)
  {
    if m < n {
      Pow2Monotone(m, n - 1);
    }
  }

  /** The value of a byte sequence read least significant byte first. */
  function FromLE(s: seq<Byte>): nat {
    if s == [] then 0 else s[0] + 256 * FromLE(s[1..])
  }

  /** The n low-order bytes of v, least significant byte first. */
  function ToLE(v: nat, n: nat): (s: seq<Byte>)
    ensures |s| == n
  {
    if n == 0 then [] else [v % 256] + ToLE(v / 256, n - 1)
  }

  lemma {:induction false} ToLEFromLE(s: seq<Byte>)
    ensures ToLE(FromLE(s), |s|) == s
  {
    if s != [] {
      ToLEFromLE(s[1..]);
      assert FromLE(s) % 256 == s[0] && FromLE(s) / 256 == FromLE(s[1..]);
      assert s == [s[0]] + s[1..];
    }
  }

  lemma {:induction false} FromLEToLE(v: nat, n: nat)
    requires v < Pow2(8 * n)
    ensures FromLE(ToLE(v, n)) == v
  {
    if n != 0 {
      Pow2Add(8, 8 * (n - 1));
      assert Pow2(8) == 256 by { Pow2Values(); }
      FromLEToLE(v / 256, n - 1);
      assert ToLE(v, n)[1..] == ToLE(v / 256, n - 1);
    }
  }

  lemma {:induction false} FromLEBound(s: seq<Byte>)
    ensures FromLE(s) < Pow2(8 * |s|)
  {
    if s != [] {
      FromLEBound(s[1..]);
      Pow2Add(8, 8 * |s[1..]|);
      assert Pow2(8) == 256 by { Pow2Values(); }
    }
  }

  lemma Pow2Values()
    ensures Pow2(1) == 2 && Pow2(2) == 4 && Pow2(3) == 8 && Pow2(4) == 16
    ensures Pow2(5) == 32 && Pow2(6) == 64 && Pow2(7) == 128 && Pow2(8) == 256
    ensures Pow2(16) == 0x1_0000 && Pow2(32) == 0x1_0000_0000
    ensures Pow2(63) == TWO63 && Pow2(64) == TWO64
  {
    assert Pow2(4) == 16 && Pow2(8) == 256;
    Pow2Add(8, 8);
    Pow2Add(16, 16);
    Pow2Add(32, 32);
    assert Pow2(64) == 2 * Pow2(63);
  }

  /** A number below the limit of an n-byte field. */
  lemma FieldFits(v: nat, n: nat)
    requires n == 1 || n == 2 || n == 4 || n == 8
    requires v < if n == 1 then 0x100 else if n == 2 then 0x1_0000 else if n == 4 then 0x1_0000_0000 else TWO64
    ensures v < Pow2(8 * n)
  {
    Pow2Values();
  }

  /** An 8-byte word fits in a uint64. */
  lemma WordBound(s: seq<Byte>)
    requires |s| == 8
    ensures FromLE(s) < TWO64
  {
    FromLEBound(s);
    Pow2Values();
  }

  /** Eight bytes survive the trip through a uint64 and back. */
  lemma WordRoundTrip(w: U64)
    ensures FromLE(ToLE(w, 8)) == w
  {
    Pow2Values();
    FromLEToLE(w, 8);
  }
}
