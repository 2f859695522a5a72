/**
 cfiReader: a cursor over the bytes of a section, and the values it reads as
 functions of the bytes and the position.
 */
module CfiReading {
  import opened Bytes
  import opened Bits
  import opened Tracee
  import opened Leb128

  /** n bytes at pos, little-endian. */
  function FixedAt(data: seq<Byte>, pos: nat, n: nat): Read<nat> {
    if pos + n <= |data| then Got(FromLE(data[pos..pos + n]), pos + n) else Bad
  }

  /** The next n bytes. */
  function SliceAt(data: seq<Byte>, pos: nat, n: nat): Read<seq<Byte>> {
    if pos + n <= |data| then Got(data[pos..pos + n], pos + n) else Bad
  }

  lemma OneByte(data: seq<Byte>, pos: nat)
    requires pos < |data|
    ensures FromLE(data[pos..pos + 1]) == data[pos]
  {
    assert FromLE(data[pos..pos + 1][1..]) == 0;
  }

  /** The position n bytes further, or the end. */
  function SkipFrom(data: seq<Byte>, pos: nat, n: int): (p: nat)
    requires pos + n >= 0
    ensures p <= |data|
  {
    if pos + n <= |data| then pos + n else |data|
  }

  lemma FixedBound(data: seq<Byte>, pos: nat, n: nat)
    requires FixedAt(data, pos, n).Got?
    ensures FixedAt(data, pos, n).value < Pow2(8 * n)
  {
    FromLEBound(data[pos..pos + n]);
  }

  /** Reinterpretation of an n-bit pattern as a signed number. */
  function SignExtend(v: nat, bits: nat): int
    requires bits > 0
  {
    if v < Pow2(bits - 1) then v else v - Pow2(bits)
  }

  lemma SignExtend16(d: int)
    requires -0x8000 <= d < 0x8000
    ensures SignExtend(d % 0x1_0000, 16) == d
  {
    assert Pow2(16) == 0x1_0000 && Pow2(15) == 0x8000 by {
      Pow2Values();
      assert Pow2(16) == 2 * Pow2(15);
    }
  }

  lemma SignExtend32(d: int)
    requires -0x8000_0000 <= d < 0x8000_0000
    ensures SignExtend(d % 0x1_0000_0000, 32) == d
  {
    assert Pow2(32) == 0x1_0000_0000 && Pow2(31) == 0x8000_0000 by {
      Pow2Values();
      assert Pow2(32) == 2 * Pow2(31);
    }
  }

  /** The formats and applications of a DW_EH_PE pointer encoding. */
  const PTR_OMIT: Byte := 0xff

  /** encodedPtrSize: 0 for the formats of variable size and the unknown ones. */
  function EncodedPtrSize(enc: Byte): nat {
    var format := enc % 16;
    if format == 0x00 || format == 0x04 || format == 0x0c then 8
    else if format == 0x02 || format == 0x0a then 2
    else if format == 0x03 || format == 0x0b then 4
    else 0
  }

  /** The encoded value before relativity is applied. */
  function RawPointerAt(data: seq<Byte>, pos: nat, enc: Byte): Read<int>
    requires pos <= |data|
  {
    var format := enc % 16;
    if format == 0x01 then
      (match UlebAt(data, pos) case Got(v, next) => Got(v, next) case Bad => Bad)
    else if format == 0x09 then
      (match SlebAt(data, pos) case Got(v, next) => Got(v, next) case Bad => Bad)
    else if EncodedPtrSize(enc) == 0 then Bad
    else
      match FixedAt(data, pos, EncodedPtrSize(enc))
      case Bad => Bad
      case Got(v, next) =>
        if format == 0x0a then Got(SignExtend(v, 16), next)
        else if format == 0x0b then Got(SignExtend(v, 32), next)
        else Got(v, next)
  }

  /** readAddress: pcrel is relative to the field itself, datarel to the start of the data. */
  function AddressAt(data: seq<Byte>, base: U64, pos: nat, enc: Byte): (r: Read<U64>)
    requires pos <= |data|
    ensures r.Got? ==> pos <= r.next <= |data|
  {
    if enc == PTR_OMIT then Got(0, pos)
    else
      match RawPointerAt(data, pos, enc)
      case Bad => Bad
      case Got(v, next) =>
        var application := enc / 16 % 8;
        if application == 0 then Got(Wrap64(v), next)
        else if application == 1 then Got(Wrap64(v + base + pos), next)
        else if application == 3 then Got(Wrap64(v + base), next)
        else Bad
  }

  /** A pointer of fixed size takes exactly that many bytes, and fails exactly when they are not all there. */
  lemma AddressAdvances(data: seq<Byte>, base: U64, pos: nat, enc: Byte)
    requires pos <= |data| && EncodedPtrSize(enc) != 0 && enc / 16 % 8 in {0, 1, 3}
    ensures AddressAt(data, base, pos, enc).Got? <==> pos + EncodedPtrSize(enc) <= |data|
    ensures AddressAt(data, base, pos, enc).Got? ==> AddressAt(data, base, pos, enc).next == pos + EncodedPtrSize(enc)
  {
  }

  class Reader {
    const data: seq<Byte>
    const baseAddr: U64
    var pos: nat

    constructor (data: seq<Byte>, baseAddr: U64, pos: nat)
      requires pos <= |data|
      ensures Valid() && this.data == data && this.baseAddr == baseAddr && this.pos == pos
    {
      this.data, this.baseAddr, this.pos := data, baseAddr, pos;
    }

    ghost predicate Valid()
      reads this`pos
    {
      pos <= |data|
    }

    /** The position after a read: where the value ended, or somewhere in the data after a failure. */
    ghost predicate Moved<T>(r: Read<T>)
      reads this`pos
    {
      Valid() && (r.Got? ==> pos == r.next)
    }

    /** readU8, readU16, readU32 and readU64. */
    method ReadFixed(n: nat) returns (r: Read<nat>)
      requires Valid()
      modifies this`pos
      ensures r == FixedAt(data, old(pos), n) && Moved(r)
    {
      if pos + n > |data| {
        return Bad;
      }
      r := Got(FromLE(data[pos..pos + n]), pos + n);
      pos := pos + n;
    }

    /**
     readSLEB128: or-ing seven bits at a time into a 64-bit result, then the sign
     bits above them. It yields the signed value of the whole run modulo 2^64,
     however long the run is.
     */
    method ReadSLEB128() returns (r: Read<I64>)
      requires Valid()
      modifies this`pos
      ensures r == SlebAt(data, old(pos)) && Moved(r)
    {
      ghost var start := pos;
      var result: U64 := 0;
      var shift := 0;
      while true
        invariant start <= pos <= |data| && shift == 7 * (pos - start)
        invariant forall k :: start <= k < pos ==> data[k] >= 128
        invariant result == Wrap64(Groups(data[start..pos]))
        decreases |data| - pos
      {
        if pos >= |data| {
          RunAtStep(data, start, pos);
          return Bad;
        }
        var b := data[pos];
        result := OrGroup(result, b, shift, data, start, pos);
        pos := pos + 1;
        shift := shift + 7;
        if b < 128 {
          var value := ExtendSign(result, b, shift, data, start, pos);
          return Got(value, pos);
        }
      }
    }

    /** readULEB128, which is Go's binary.Uvarint: at most ten bytes, the tenth at most 1. */
    method ReadULEB128() returns (r: Read<U64>)
      requires Valid()
      modifies this`pos
      ensures r == UlebAt(data, old(pos)) && Moved(r)
    {
      var start := pos;
      var i, x := 0, 0;
      while start + i < |data|
        invariant start + i <= |data| && pos == start
        invariant i <= 10
        invariant forall k :: start <= k < start + i ==> data[k] >= 128
        invariant 0 <= x < TWO64 && (i <= 9 ==> x == Groups(data[start..start + i]))
      {
        if i == 10 {
          LongRun(data, start);
          return Bad;
        }
        var b := data[start + i];
        if b < 128 {
          UlebStops(data, start, i);
          if i == 9 && b > 1 {
            return Bad;
          }
          OrLast(data[start..start + i], b);
          pos := start + i + 1;
          return Got(Wrap64(Bitwise(OrGate, x, Shifted(b, 7 * i))), pos);
        }
        if i < 9 {
          OrNext(data[start..start + i], b);
          SliceStep(data, start, start + i);
        }
        x := Wrap64(Bitwise(OrGate, x, Shifted(b % 128, 7 * i)));
        i := i + 1;
      }
      RunAtStep(data, start, start + i);
      r := Bad;
    }

    /** readAddress. */
    method ReadAddress(enc: Byte) returns (r: Read<U64>)
      requires Valid()
      modifies this`pos
      ensures r == AddressAt(data, baseAddr, old(pos), enc) && Moved(r)
    {
      if enc == PTR_OMIT {
        return Got(0, pos);
      }
      var start, format := pos, enc % 16;
      var raw: int;
      if format == 0x01 {
        var v := ReadULEB128();
        if v.Bad? {
          return Bad;
        }
        raw := v.value;
      } else if format == 0x09 {
        var v := ReadSLEB128();
        if v.Bad? {
          return Bad;
        }
        raw := v.value;
      } else if EncodedPtrSize(enc) == 0 {
        return Bad;
      } else {
        var v := ReadFixed(EncodedPtrSize(enc));
        if v.Bad? {
          return Bad;
        }
        raw := if format == 0x0a then SignExtend(v.value, 16) else if format == 0x0b then SignExtend(v.value, 32) else v.value;
      }
      var application := enc / 16 % 8;
      if application == 0 {
        r := Got(Wrap64(raw), pos);
      } else if application == 1 {
        r := Got(Wrap64(raw + baseAddr + start), pos);
      } else if application == 3 {
        r := Got(Wrap64(raw + baseAddr), pos);
      } else {
        r := Bad;
      }
    }

    /** A jump of n bytes. A position past the end reads nothing more, so it is kept as the end. */
    method Skip(n: int) returns (ok: bool)
      requires Valid()
      modifies this`pos
      ensures Valid() && ok == (old(pos) + n >= 0)
      ensures ok ==> pos == SkipFrom(data, old(pos), n)
    {
      ok := pos + n >= 0;
      if ok {
        pos := SkipFrom(data, pos, n);
      }
    }

    /** slice: the next n bytes. */
    method Slice(n: nat) returns (r: Read<seq<Byte>>)
      requires Valid()
      modifies this`pos
      ensures r == SliceAt(data, old(pos), n) && Moved(r)
    {
      if pos + n > |data| {
        return Bad;
      }
      r := Got(data[pos..pos + n], pos + n);
      pos := pos + n;
    }
  }

  /** What is read when the run ends at its byte i. */
  lemma UlebStops(data: seq<Byte>, start: nat, i: nat)
    requires i <= 9 && start + i < |data| && data[start + i] < 128
    requires forall k :: start <= k < start + i ==> data[k] >= 128
    ensures
      var x, b := Groups(data[start..start + i]), data[start + i];
      if i == 9 && b > 1 then UlebAt(data, start) == Bad
      else x + b * Pow2(7 * i) < TWO64 && UlebAt(data, start) == Got(x + b * Pow2(7 * i), start + i + 1)
  {
    var sofar, b := data[start..start + i], data[start + i];
    RunEnds(data, start, start + i + 1);
    LastByte(sofar, b);
    assert data[start..start + i + 1] == sofar + [b];
  }

  /** A run ends with its first byte below 128. */
  lemma RunEnds(data: seq<Byte>, start: nat, end: nat)
    requires start < end <= |data| && data[end - 1] < 128
    requires forall k :: start <= k < end - 1 ==> data[k] >= 128
    ensures RunAt(data, start) == Some(data[start..end])
  {
    RunAtStep(data, start, end - 1);
    assert data[start..end - 1] + [data[end - 1]] == data[start..end];
  }

  /** The last byte of a run in its place, and whether the value still fits. */
  lemma LastByte(sofar: seq<Byte>, b: Byte)
    requires |sofar| <= 9 && b < 128
    ensures Groups(sofar + [b]) == Groups(sofar) + b * Pow2(7 * |sofar|)
    ensures Groups(sofar + [b]) < TWO64 <==> |sofar| < 9 || b <= 1
  {
    var d := b % 128;
    assert d == b;
    GroupsAppend(sofar, b);
    assert Groups(sofar + [b]) == Groups(sofar) + d * Pow2(7 * |sofar|);
    TenthByte(sofar, b);
  }

  lemma SliceStep(data: seq<Byte>, start: nat, pos: nat)
    requires start <= pos < |data|
    ensures data[start..pos] + [data[pos]] == data[start..pos + 1]
  {
  }

  /** int64(b & 0x7f) << shift: nothing is left of it from shift 64 on. */
  function Shifted(group: nat, shift: nat): U64 {
    if shift < 64 then Wrap64(group * Pow2(shift)) else 0
  }

  /** result |= int64(b & 0x7f) << shift: one more group of the run from `start`. */
  method OrGroup(result: U64, b: Byte, shift: nat, ghost data: seq<Byte>, ghost start: nat, ghost pos: nat) returns (r: U64)
    requires start <= pos < |data| && b == data[pos] && shift == 7 * (pos - start)
    requires result == Wrap64(Groups(data[start..pos]))
    ensures r == Wrap64(Groups(data[start..pos + 1]))
  {
    ghost var sofar := data[start..pos];
    SliceStep(data, start, pos);
    OrIsNextGroup(sofar, b, shift);
    r := Wrap64(Bitwise(OrGate, result, Shifted(b % 128, shift)));
  }

  /** The bits of a new group do not overlap those before it, so or-ing them in appends the group. */
  lemma OrIsNextGroup(sofar: seq<Byte>, b: Byte, shift: nat)
    requires shift == 7 * |sofar|
    ensures Wrap64(Bitwise(OrGate, Wrap64(Groups(sofar)), Shifted(b % 128, shift))) == Wrap64(Groups(sofar + [b]))
  {
    GroupsAppend(sofar, b);
    GroupsBound(sofar);
    var low, group := Groups(sofar), b % 128;
    if shift < 64 {
      OrBelow64(low, group, shift);
    } else {
      OrFrom64(low, group, shift);
    }
  }

  /** Groups that fit a uint64 are or-ed together without loss. */
  lemma OrFits(sofar: seq<Byte>, group: nat)
    requires |sofar| <= 9 && Groups(sofar) + group * Pow2(7 * |sofar|) < TWO64
    ensures Wrap64(Bitwise(OrGate, Groups(sofar), Shifted(group, 7 * |sofar|))) == Groups(sofar) + group * Pow2(7 * |sofar|)
  {
    var low, shift := Groups(sofar), 7 * |sofar|;
    GroupsBound(sofar);
    WrapLow(low, shift);
    OrBelow64(low, group, shift);
    WrapFits(low, group, Pow2(shift));
  }

  lemma WrapFits(low: nat, group: nat, p: nat)
    requires low + group * p < TWO64
    ensures Wrap64(low + group * p) == low + group * p
  {
    MulAtMost(0, group, p);
  }

  lemma OrLast(sofar: seq<Byte>, b: Byte)
    requires |sofar| <= 9 && b < 128 && (|sofar| == 9 ==> b <= 1)
    ensures Wrap64(Bitwise(OrGate, Groups(sofar), Shifted(b, 7 * |sofar|))) == Groups(sofar) + b * Pow2(7 * |sofar|)
  {
    TenthByte(sofar, b);
    OrFits(sofar, b);
  }

  lemma OrNext(sofar: seq<Byte>, b: Byte)
    requires |sofar| <= 8
    ensures Wrap64(Bitwise(OrGate, Groups(sofar), Shifted(b % 128, 7 * |sofar|))) == Groups(sofar + [b])
  {
    GroupsAppend(sofar, b);
    TenthByte(sofar, b % 128);
    OrFits(sofar, b % 128);
  }

  lemma OrBelow64(low: nat, group: nat, shift: nat)
    requires shift < 64 && low < Pow2(shift)
    ensures Wrap64(Bitwise(OrGate, Wrap64(low), Shifted(group, shift))) == Wrap64(low + group * Pow2(shift))
  {
    var y, g := Shifted(group, shift), group * Pow2(shift);
    WrapLow(low, shift);
    ShiftedMultiple(group, shift);
    OrAbove(low, shift, y / Pow2(shift));
    ModPlus(low, g);
  }

  lemma OrFrom64(low: nat, group: nat, shift: nat)
    requires shift >= 64
    ensures Wrap64(Bitwise(OrGate, Wrap64(low), Shifted(group, shift))) == Wrap64(low + group * Pow2(shift))
  {
    OrWithZero(Wrap64(low));
    Pow2Multiple(shift);
    PlusMultiple(low, group, Pow2(shift));
    WrapTwice(low);
  }

  lemma WrapTwice(x: int)
    ensures Wrap64(Wrap64(x)) == Wrap64(x)
  {
  }

  lemma ModPlus(a: int, b: int)
    ensures Wrap64(a + Wrap64(b)) == Wrap64(a + b)
  {
  }

  lemma WrapLow(x: nat, shift: nat)
    requires shift < 64 && x < Pow2(shift)
    ensures Wrap64(x) == x
  {
    Pow2Monotone(shift, 64);
    Pow2Values();
  }

  lemma {:induction false} OrWithZero(x: nat)
    ensures Bitwise(OrGate, x, 0) == x
    decreases x
  {
    if x > 0 {
      OrWithZero(x / 2);
    }
  }

  /** What is shifted up by less than 64 stays a multiple of the shift when it is cut to 64 bits. */
  lemma ShiftedMultiple(group: nat, shift: nat)
    requires shift < 64
    ensures Shifted(group, shift) == Pow2(shift) * (Shifted(group, shift) / Pow2(shift))
  {
    var p, q := Pow2(shift), Pow2(64 - shift);
    Pow2Values();
    Pow2Add(shift, 64 - shift);
    CutMultiple(group, p, q);
  }

  lemma CutMultiple(g: nat, p: int, q: int)
    requires p > 0 && q > 0 && p * q == TWO64
    ensures g * p % TWO64 == p * (g * p % TWO64 / p)
  {
    var h := g % q;
    assert g == g / q * q + h;
    assert g * p == (g / q) * (p * q) + h * p;
    assert 0 <= h * p < p * q;
    QuotientIs64(g * p, g / q, h * p);
    assert h * p / p == h;
  }

  lemma QuotientIs64(x: int, q: int, r: int)
    requires x == q * TWO64 + r && 0 <= r < TWO64
    ensures x % TWO64 == r
  {
  }

  lemma PlusMultiple(a: int, g: int, p: int)
    requires p % TWO64 == 0
    ensures (a + g * p) % TWO64 == a % TWO64
  {
    var k := p / TWO64;
    assert g * p == (g * k) * TWO64;
  }

  /** result |= -(1 << shift): the sign bits above the last group, when there is room below bit 64. */
  method ExtendSign(result: U64, b: Byte, shift: nat, ghost data: seq<Byte>, ghost start: nat, ghost end: nat) returns (value: I64)
    requires start < end <= |data| && b == data[end - 1] && b < 128 && shift == 7 * (end - start)
    requires forall k :: start <= k < end - 1 ==> data[k] >= 128
    requires result == Wrap64(Groups(data[start..end]))
    ensures SlebAt(data, start) == Got(value, end)
  {
    ghost var run := data[start..end];
    RunEnds(data, start, end);
    SignWrap(run, shift);
    var extended := result;
    if shift < 64 && b % 128 >= 64 {
      OrIsMinus(run, shift);
      extended := Wrap64(Bitwise(OrGate, result, Wrap64(0 - Pow2(shift))));
    }
    value := Signed64(extended);
  }

  /** Setting all bits from `shift` on subtracts 2^shift. */
  lemma OrIsMinus(run: seq<Byte>, shift: nat)
    requires shift == 7 * |run| < 64
    ensures Wrap64(Bitwise(OrGate, Wrap64(Groups(run)), Wrap64(0 - Pow2(shift)))) == Wrap64(Wrap64(Groups(run)) - Pow2(shift))
  {
    GroupsBound(run);
    WrapLow(Groups(run), shift);
    OrSignBits(Groups(run), shift);
  }

  lemma OrSignBits(low: nat, shift: nat)
    requires shift < 64 && low < Pow2(shift)
    ensures Wrap64(Bitwise(OrGate, low, Wrap64(0 - Pow2(shift)))) == Wrap64(low - Pow2(shift))
  {
    var p, k := Pow2(shift), Pow2(64 - shift) - 1;
    SignBits(shift);
    OrAbove(low, shift, k);
    MinusAsPlus(low, p);
  }

  /** The bits from `shift` on. */
  lemma SignBits(shift: nat)
    requires shift < 64
    ensures Wrap64(0 - Pow2(shift)) == Pow2(shift) * (Pow2(64 - shift) - 1) == TWO64 - Pow2(shift)
  {
    Pow2Values();
    Pow2Add(shift, 64 - shift);
    Pow2Monotone(shift, 64);
    TimesMinusOne(Pow2(shift), Pow2(64 - shift));
    WrapNegative(Pow2(shift));
  }

  lemma TimesMinusOne(p: int, q: int)
    ensures p * (q - 1) == p * q - p
  {
  }

  lemma WrapNegative(p: int)
    requires 0 < p <= TWO64
    ensures Wrap64(0 - p) == TWO64 - p
  {
  }

  lemma MinusAsPlus(x: int, p: int)
    ensures Wrap64(x + (TWO64 - p)) == Wrap64(x - p)
  {
  }

  lemma ModAdd(a: int, b: int)
    ensures (a % TWO64 + b) % TWO64 == (a + b) % TWO64
  {
  }

  /** Subtracting the sign only when it lies below bit 64 makes no difference modulo 2^64. */
  lemma SignWrap(run: seq<Byte>, shift: nat)
    requires run != [] && shift == 7 * |run|
    ensures Wrap64(SignedGroups(run)) ==
            if shift < 64 && run[|run| - 1] % 128 >= 64 then Wrap64(Wrap64(Groups(run)) - Pow2(shift)) else Wrap64(Groups(run))
  {
    if run[|run| - 1] % 128 >= 64 {
      if shift >= 64 {
        Pow2Multiple(shift);
        MinusMultiple(Groups(run), Pow2(shift));
      } else {
        ModAdd(Groups(run), -Pow2(shift));
      }
    }
  }

  lemma MinusMultiple(a: int, p: int)
    requires p % TWO64 == 0
    ensures (a - p) % TWO64 == a % TWO64
  {
  }

  /** A run of more than ten bytes is not a uint64. */
  lemma LongRun(data: seq<Byte>, start: nat)
    requires start + 10 < |data| && forall k :: start <= k < start + 10 ==> data[k] >= 128
    ensures UlebAt(data, start) == Bad
  {
    RunAtStep(data, start, start + 10);
  }

  /** With nine full groups before it, the last byte overflows exactly when it exceeds 1. */
  lemma TenthByte(sofar: seq<Byte>, b: Byte)
    requires |sofar| <= 9 && b < 128
    ensures Groups(sofar) + b * Pow2(7 * |sofar|) < TWO64 <==> |sofar| < 9 || b <= 1
  {
    GroupsBound(sofar);
    GroupPlace(|sofar|);
    LastGroup(Groups(sofar), b, Pow2(7 * |sofar|));
  }

  lemma GroupPlace(n: nat)
    requires n <= 9
    ensures if n == 9 then Pow2(7 * n) == TWO63 else 128 * Pow2(7 * n) <= TWO63
  {
    Pow2Values();
    if n < 9 {
      Pow2Add(7, 7 * n);
      Pow2Monotone(7 * n + 7, 63);
    }
  }

  lemma LastGroup(low: nat, b: nat, p: nat)
    requires low < p && b < 128 && (p == TWO63 || 128 * p <= TWO63)
    ensures low + b * p < TWO64 <==> p != TWO63 || b <= 1
  {
    if p != TWO63 {
      MulAtMost(b, 127, p);
    }
  }

  lemma MulAtMost(a: nat, b: nat, p: nat)
    requires a <= b
    ensures a * p <= b * p
  {
  }
}
