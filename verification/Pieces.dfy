/**
 Values assembled bit by bit: memcpyBits, ReadLocationData over the pieces of a
 composite location, and the extraction of bit fields.
 */
module Pieces {
  import opened Bytes
  import opened Bits
  import opened Tracee
  import opened DwarfMachine

  /** Bit i of a byte sequence, least significant bit of each byte first; 0 past the end. */
  function BitAt(s: seq<Byte>, i: nat): BitValue {
    if i / 8 < |s| then Bit(s[i / 8], i % 8) else 0
  }

  /** The bits of a byte sequence are those of its little-endian value. */
  lemma {:induction false} BitsOfValue(s: seq<Byte>, i: nat)
    ensures Bit(FromLE(s), i) == BitAt(s, i)
    decreases |s|
  {
    if s == [] {
      BitOfZero(i);
    } else if i < 8 {
      LowBits(s[0], FromLE(s[1..]), 8, i);
    } else {
      BitsOfValue(s[1..], i - 8);
      HighBits(s[0], FromLE(s[1..]), i);
      assert (i - 8) / 8 == i / 8 - 1 && (i - 8) % 8 == i % 8;
    }
  }

  lemma {:induction false} LowBits(x: nat, y: nat, w: nat, i: nat)
    requires i < w
    ensures Bit(x + Pow2(w) * y, i) == Bit(x, i)
    decreases w
  {
    assert Pow2(w) * y == 2 * (Pow2(w - 1) * y);
    if i > 0 {
      LowBits(x / 2, y, w - 1, i - 1);
      assert (x + 2 * (Pow2(w - 1) * y)) / 2 == x / 2 + Pow2(w - 1) * y;
    }
  }

  lemma HighBits(x: Byte, y: nat, i: nat)
    requires i >= 8
    ensures Bit(x + 256 * y, i) == Bit(y, i - 8)
  {
    BitShiftDown(x + 256 * y, 8, i - 8);
    ShiftDownIs(x + 256 * y, 8);
    assert Pow2(8) == 256 by { Pow2Values(); }
    assert (x + 256 * y) / 256 == y;
  }

  /** x shifted right by k. */
  function ShiftDown(x: nat, k: nat): nat {
    if k == 0 then x else ShiftDown(x / 2, k - 1)
  }

  lemma {:induction false} ShiftDownIs(x: nat, k: nat)
    ensures ShiftDown(x, k) == x / Pow2(k)
    decreases k
  {
    if k > 0 {
      ShiftDownIs(x / 2, k - 1);
      DivTwice(x, Pow2(k - 1));
    }
  }

  lemma {:induction false} BitShiftDown(x: nat, k: nat, i: nat)
    ensures Bit(ShiftDown(x, k), i) == Bit(x, i + k)
    decreases k
  {
    if k > 0 {
      BitShiftDown(x / 2, k - 1, i);
    }
  }

  /** The w low bits of x. */
  function LowPart(x: nat, w: nat): nat {
    if w == 0 then 0 else x % 2 + 2 * LowPart(x / 2, w - 1)
  }

  lemma {:induction false} LowPartIs(x: nat, w: nat)
    ensures LowPart(x, w) == x % Pow2(w)
    decreases w
  {
    if w > 0 {
      LowPartIs(x / 2, w - 1);
      ModTwice(x, Pow2(w - 1));
    }
  }

  lemma {:induction false} BitLowPart(x: nat, w: nat, i: nat)
    ensures Bit(LowPart(x, w), i) == if i < w then Bit(x, i) else 0
    decreases w
  {
    if w == 0 {
      BitOfZero(i);
    } else if i > 0 {
      BitLowPart(x / 2, w - 1, i - 1);
      assert LowPart(x, w) / 2 == LowPart(x / 2, w - 1);
    }
  }

  lemma ModTwice(x: nat, p: nat)
    requires p > 0
    ensures x % (2 * p) == x % 2 + 2 * (x / 2 % p)
  {
    var q, r := x / 2 / p, x / 2 % p;
    DivMod(x / 2, p);
    assert x == q * (2 * p) + (2 * r + x % 2);
    QuotientIs(x, 2 * p, q, 2 * r + x % 2);
  }

  lemma DivTwice(x: nat, p: nat)
    requires p > 0
    ensures x / (2 * p) == x / 2 / p
  {
    var q, r := x / 2 / p, x / 2 % p;
    DivMod(x / 2, p);
    assert x == q * (2 * p) + (2 * r + x % 2);
    QuotientIs(x, 2 * p, q, 2 * r + x % 2);
  }

  lemma QuotientIs(x: nat, d: nat, q: nat, r: nat)
    requires x == q * d + r && r < d
    ensures x / d == q && x % d == r
  {
    var e := q - x / d;
    assert e * d == x % d - r;
    MultipleSize(e, d);
  }

  lemma MultipleSize(e: int, d: int)
    requires d > 0
    ensures e >= 1 ==> e * d >= d
    ensures e <= -1 ==> e * d <= -d
  {
  }

  lemma DivMod(x: nat, p: nat)
    requires p > 0
    ensures x == x % p + p * (x / p) && x % p < p
  {
  }

  lemma {:induction false} SmallHighBit(x: nat, w: nat, i: nat)
    requires x < Pow2(w) && i >= w
    ensures Bit(x, i) == 0
  {
    if w == 0 {
      BitOfZero(i);
    } else {
      SmallHighBit(x / 2, w - 1, i - 1);
    }
  }

  // ---------------------------------------------------------------- memcpyBits

  /** The bits of `after` are those of src in the target range and those of before elsewhere. */
  ghost predicate CopiedBits(after: seq<Byte>, before: seq<Byte>, destBit: nat, src: seq<Byte>, srcBit: nat, n: nat) {
    && |after| == |before|
    && forall i :: 0 <= i < 8 * |before| ==>
         BitAt(after, i) == if destBit <= i < destBit + n then BitAt(src, Wrap64(srcBit + (i - destBit))) else BitAt(before, i)
  }

  /** One turn of the loop: bit di of the byte sequence becomes v. */
  lemma SetOneBit(s: seq<Byte>, t: seq<Byte>, di: nat, v: BitValue, i: nat)
    requires di < 8 * |s| && i < 8 * |s| && SetBit(s[di / 8], di % 8, v) < 256
    requires t == s[di / 8 := SetBit(s[di / 8], di % 8, v)]
    ensures BitAt(t, i) == if i == di then v else BitAt(s, i)
  {
    if i / 8 == di / 8 {
      BitSetBit(s[di / 8], di % 8, v, i % 8);
    }
  }

  lemma ByteStaysByte(b: Byte, n: nat, v: BitValue)
    requires n < 8
    ensures SetBit(b, n, v) < 256
  {
    Pow2Values();
    SetBitBound(b, n, v, 8);
  }

  lemma CopiedStep(s: seq<Byte>, t: seq<Byte>, before: seq<Byte>, destBit: nat, src: seq<Byte>, srcBit: nat, n: nat)
    requires CopiedBits(s, before, destBit, src, srcBit, n) && destBit + n < 8 * |s|
    requires
      var di, v := destBit + n, BitAt(src, Wrap64(srcBit + n));
      SetBit(s[di / 8], di % 8, v) < 256 && t == s[di / 8 := SetBit(s[di / 8], di % 8, v)]
    ensures CopiedBits(t, before, destBit, src, srcBit, n + 1)
  {
    var di, v := destBit + n, BitAt(src, Wrap64(srcBit + n));
    forall i | 0 <= i < 8 * |before|
      ensures BitAt(t, i) == if destBit <= i < destBit + n + 1 then BitAt(src, Wrap64(srcBit + (i - destBit))) else BitAt(before, i)
    {
      SetOneBit(s, t, di, v, i);
    }
  }

  /** memcpyBits: exactly the target range changes; source bits past the end count as 0. */
  method MemcpyBits(dest: array<Byte>, destBit: nat, src: seq<Byte>, srcBit: U64, n: nat)
    requires destBit + n <= 8 * dest.Length
    modifies dest
    ensures CopiedBits(dest[..], old(dest[..]), destBit, src, srcBit, n)
  {
    ghost var before := dest[..];
    var i := 0;
    while i < n
      invariant 0 <= i <= n && CopiedBits(dest[..], before, destBit, src, srcBit, i)
    {
      ghost var s := dest[..];
      var si, di := Wrap64(srcBit + i), destBit + i;
      var v := if si / 8 < |src| && Bit(src[si / 8], si % 8) != 0 then 1 else 0;
      ByteStaysByte(dest[di / 8], di % 8, v);
      dest[di / 8] := SetBit(dest[di / 8], di % 8, v);
      CopiedStep(s, dest[..], before, destBit, src, srcBit, i);
      i := i + 1;
    }
  }

  // ---------------------------------------------------------------- bit fields

  /** The position fields of a DWARF struct member. */
  datatype Field = Field(bitSize: nat, dataBitOffset: nat, bitOffset: nat)

  /** Where the field starts in `bits` bits of storage, counted from the least significant bit; may be negative. */
  function FieldStart(f: Field, bits: nat): int {
    if f.dataBitOffset != 0 then f.dataBitOffset % 8
    else if f.bitOffset != 0 then bits - f.bitOffset - f.bitSize
    else 0
  }

  /** The value of the field: the storage shifted by its start and cut to its size. */
  function FieldValue(storage: nat, start: int, size: nat): nat {
    if start >= 0 then storage / Pow2(start) % Pow2(size) else storage * Pow2(-start) % Pow2(size)
  }

  /**
   fixupBitfieldData. The little-endian value of the result is floor(LE(data) / 2^start)
   mod 2^size; a field said to reach below its storage is shifted up instead.
   */
  method FixupBitfieldData(data: seq<Byte>, f: Field) returns (result: seq<Byte>)
    requires f.bitSize <= 8 * |data| < TWO63 && f.bitOffset < TWO63
    ensures |result| == |data|
    ensures f.bitSize == 0 ==> result == data
    ensures f.bitSize != 0 ==> FromLE(result) == FieldValue(FromLE(data), FieldStart(f, 8 * |data|), f.bitSize)
  {
    if f.bitSize == 0 {
      return data;
    }
    var start := FieldStart(f, 8 * |data|);
    var buffer := new Byte[|data|](_ => 0);
    ghost var zeros := buffer[..];
    MemcpyBits(buffer, 0, data, Wrap64(start), f.bitSize);
    result := buffer[..];
    FieldIs(result, zeros, data, start, f.bitSize);
  }

  lemma FieldIs(result: seq<Byte>, zeros: seq<Byte>, data: seq<Byte>, start: int, size: nat)
    requires size <= 8 * |data| < TWO63 && -TWO63 < start < TWO63
    requires |zeros| == |data| && forall k :: 0 <= k < |zeros| ==> zeros[k] == 0
    requires CopiedBits(result, zeros, 0, data, Wrap64(start), size)
    ensures FromLE(result) == FieldValue(FromLE(data), start, size)
  {
    var w, v := 8 * |data|, FieldValue(FromLE(data), start, size);
    FromLEBound(result);
    FieldBound(FromLE(data), start, size);
    Pow2Monotone(size, w);
    forall i | 0 <= i < w
      ensures Bit(FromLE(result), i) == Bit(v, i)
    {
      BitsOfValue(result, i);
      if i < size {
        FieldBit(data, start, size, i);
      } else {
        SmallHighBit(v, size, i);
        BitOfZero(i % 8);
      }
    }
    BitsDetermine(FromLE(result), v, w);
  }

  lemma FieldBound(storage: nat, start: int, size: nat)
    ensures FieldValue(storage, start, size) < Pow2(size)
  {
  }

  /** The bit of the storage that becomes bit i of the field. */
  lemma FieldBit(data: seq<Byte>, start: int, size: nat, i: nat)
    requires i < size <= 8 * |data| < TWO63 && -TWO63 < start < TWO63
    ensures Bit(FieldValue(FromLE(data), start, size), i) == BitAt(data, Wrap64(Wrap64(start) + i))
  {
    var v := FieldValue(FromLE(data), start, size);
    if start >= 0 {
      BitDown(FromLE(data), start, size, v, i);
      BitsOfValue(data, i + start);
      WrapAbove(start, i);
    } else {
      BitUpCut(FromLE(data), 0 - start, size, v, i);
      WrapBelow(start, i);
      if i >= 0 - start {
        BitsOfValue(data, i + start);
      }
    }
  }

  lemma BitDown(x: nat, start: nat, size: nat, v: nat, i: nat)
    requires i < size && v == x / Pow2(start) % Pow2(size)
    ensures Bit(v, i) == Bit(x, i + start)
  {
    ShiftDownIs(x, start);
    LowPartIs(ShiftDown(x, start), size);
    BitLowPart(ShiftDown(x, start), size, i);
    BitShiftDown(x, start, i);
  }

  lemma BitUpCut(x: nat, k: nat, size: nat, v: nat, i: nat)
    requires i < size && v == x * Pow2(k) % Pow2(size)
    ensures Bit(v, i) == if i < k then 0 else Bit(x, i - k)
  {
    LowPartIs(x * Pow2(k), size);
    BitLowPart(x * Pow2(k), size, i);
    BitUp(x, k, i);
  }

  lemma WrapAbove(start: nat, i: nat)
    requires start < TWO63 && i < TWO63
    ensures Wrap64(Wrap64(start) + i) == start + i
  {
  }

  lemma WrapBelow(start: int, i: nat)
    requires -TWO63 < start < 0 && i < TWO63
    ensures Wrap64(Wrap64(start) + i) == if start + i < 0 then start + i + TWO64 else start + i
  {
    assert Wrap64(start) == start + TWO64;
  }

  lemma {:induction false} BitUp(x: nat, k: nat, i: nat)
    ensures Bit(x * Pow2(k), i) == if i < k then 0 else Bit(x, i - k)
    decreases k
  {
    if k > 0 {
      assert x * Pow2(k) == 2 * (x * Pow2(k - 1));
      if i > 0 {
        BitUp(x, k - 1, i - 1);
      }
    }
  }

  /**
   DW_AT_data_bit_offset counts bits from the start of the struct: when the storage is the
   struct's bytes from the one the field starts in, the field's value has exactly the
   struct's bits from that offset on.
   */
  lemma FieldOfStruct(whole: seq<Byte>, data: seq<Byte>, f: Field, i: nat)
    requires f.dataBitOffset != 0 && i < f.bitSize <= 8 * |data| < TWO63
    requires f.dataBitOffset / 8 + |data| <= |whole| && data == whole[f.dataBitOffset / 8..f.dataBitOffset / 8 + |data|]
    requires f.dataBitOffset % 8 + f.bitSize <= 8 * |data|
    ensures Bit(FieldValue(FromLE(data), FieldStart(f, 8 * |data|), f.bitSize), i) == BitAt(whole, f.dataBitOffset + i)
  {
    var start := FieldStart(f, 8 * |data|);
    FieldBit(data, start, f.bitSize, i);
    WrapAbove(start, i);
    assert (start + i) / 8 + f.dataBitOffset / 8 == (f.dataBitOffset + i) / 8;
  }

  /**
   DW_AT_bit_offset counts from the other end: bit k of the field, from its most significant
   one, is bit bitOffset + k of the storage, from its most significant one.
   */
  lemma FieldFromTop(data: seq<Byte>, f: Field, k: nat)
    requires f.dataBitOffset == 0 && f.bitOffset != 0 && k < f.bitSize && f.bitOffset + f.bitSize <= 8 * |data| < TWO63
    ensures Bit(FieldValue(FromLE(data), FieldStart(f, 8 * |data|), f.bitSize), f.bitSize - 1 - k) ==
            BitAt(data, 8 * |data| - 1 - (f.bitOffset + k))
  {
    var start := FieldStart(f, 8 * |data|);
    FieldBit(data, start, f.bitSize, f.bitSize - 1 - k);
    WrapAbove(start, f.bitSize - 1 - k);
  }

  // ---------------------------------------------------------------- composite locations

  /** What locations can be read from: registers as bytes, and memory. */
  datatype Sources = Sources(reg: U64 -> Option<seq<Byte>>, memory: (U64, nat) -> Option<seq<Byte>>)

  /** readSimpleLocationData. */
  function SimpleData(src: Sources, location: Location, size: nat): Option<seq<Byte>> {
    match location
    case Nowhere => None
    case Register(reg) => src.reg(reg)
    case Address(addr) => src.memory(addr, size)
    case Literal(value) => Some(if size < 8 then ToLE(value, 8)[..size] else ToLE(value, 8))
    case Inline(bytes) => Some(seq(size, i requires 0 <= i < size => if i < |bytes| then bytes[i] else 0))
  }

  /** A literal read as n bytes is its value cut to them, little-endian; it has eight bytes to give. */
  lemma LiteralCut(src: Sources, value: U64, n: nat)
    ensures
      var d := SimpleData(src, Literal(value), n);
      d.Some? && |d.value| == (if n < 8 then n else 8) && FromLE(d.value) == value % Pow2(8 * |d.value|)
  {
    var m := if n < 8 then n else 8;
    CutIs(value, m, 8);
    Pow2Values();
    if m == 8 {
      assert ToLE(value, 8)[..8] == ToLE(value, 8);
    }
  }

  lemma {:induction false} CutIs(v: nat, m: nat, n: nat)
    requires m <= n
    ensures FromLE(ToLE(v, n)[..m]) == v % Pow2(8 * m)
  {
    if m > 0 {
      CutIs(v / 256, m - 1, n - 1);
      assert ToLE(v, n)[..m][1..] == ToLE(v / 256, n - 1)[..m - 1];
      SplitMod(v, Pow2(8 * (m - 1)));
      Pow2Add(8, 8 * (m - 1));
      Pow2Values();
    }
  }

  lemma SplitMod(v: nat, p: nat)
    requires p > 0
    ensures v % (256 * p) == v % 256 + 256 * (v / 256 % p)
  {
    var q, r := v / 256 / p, v / 256 % p;
    DivMod(v / 256, p);
    assert v == q * (256 * p) + (256 * r + v % 256);
    QuotientIs(v, 256 * p, q, 256 * r + v % 256);
  }

  function PartData(src: Sources, p: Part): Option<seq<Byte>> {
    SimpleData(src, p.location, (p.bitSize + 7) / 8)
  }

  /** The bits a piece contributes; those its source does not have are 0. */
  function PartBits(data: seq<Byte>, p: Part): (bits: seq<BitValue>)
    ensures |bits| == p.bitSize
    ensures forall i :: 0 <= i < p.bitSize ==> bits[i] == BitAt(data, Wrap64(p.bitOffset + i))
  {
    seq<BitValue>(p.bitSize, i requires 0 <= i < p.bitSize => BitAt(data, Wrap64(p.bitOffset + i)))
  }

  function Total(parts: seq<Part>): nat {
    if parts == [] then 0 else Total(parts[..|parts| - 1]) + parts[|parts| - 1].bitSize
  }

  /** The concatenation of the pieces, first piece lowest; None when one cannot be read. */
  function Assembled(src: Sources, parts: seq<Part>): (bits: Option<seq<BitValue>>)
    ensures bits.Some? ==> |bits.value| == Total(parts)
  {
    if parts == [] then Some([])
    else
      var last := parts[|parts| - 1];
      match (Assembled(src, parts[..|parts| - 1]), PartData(src, last))
      case (Some(bits), Some(data)) => Some(bits + PartBits(data, last))
      case _ => None
  }

  /** A whole-byte piece finds as many bytes as it takes. */
  predicate Supplied(src: Sources, p: Part) {
    p.bitOffset == 0 && p.bitSize % 8 == 0 && PartData(src, p).Some? ==> 8 * |PartData(src, p).value| >= p.bitSize
  }

  /** The low bits of data are `bits`. */
  ghost predicate Agrees(data: seq<Byte>, bits: seq<BitValue>) {
    |bits| <= 8 * |data| && forall j :: 0 <= j < |bits| ==> BitAt(data, j) == bits[j]
  }

  lemma {:induction false} TotalPrefix(parts: seq<Part>, k: nat)
    requires k <= |parts|
    ensures Total(parts[..k]) <= Total(parts)
  {
    if k < |parts| {
      TotalPrefix(parts[..|parts| - 1], k);
      assert parts[..|parts| - 1][..k] == parts[..k];
    } else {
      assert parts[..k] == parts;
    }
  }

  lemma {:induction false} AssembledPrefix(src: Sources, parts: seq<Part>, k: nat)
    requires k <= |parts| && Assembled(src, parts).Some?
    ensures Assembled(src, parts[..k]).Some?
  {
    if k < |parts| {
      AssembledPrefix(src, parts[..|parts| - 1], k);
      assert parts[..|parts| - 1][..k] == parts[..k];
    } else {
      assert parts[..k] == parts;
    }
  }

  /** One more piece. */
  lemma OneMore(src: Sources, parts: seq<Part>, k: nat)
    requires k < |parts|
    ensures Total(parts[..k + 1]) == Total(parts[..k]) + parts[k].bitSize
    ensures Assembled(src, parts[..k + 1]) ==
            match (Assembled(src, parts[..k]), PartData(src, parts[k]))
            case (Some(bits), Some(data)) => Some(bits + PartBits(data, parts[k]))
            case _ => None
  {
    var next := parts[..k + 1];
    assert next[..|next| - 1] == parts[..k] && next[|next| - 1] == parts[k];
  }

  /** The aligned path copies all bytes it has, beyond the piece if there are more. */
  method CopyBytes(dest: array<Byte>, at: nat, src: seq<Byte>)
    requires at <= dest.Length
    modifies dest
    ensures forall i :: 0 <= i < dest.Length ==> dest[i] == if at <= i < at + |src| then src[i - at] else old(dest[i])
  {
    forall i | 0 <= i < dest.Length {
      dest[i] := if at <= i < at + |src| then src[i - at] else dest[i];
    }
  }

  lemma AlignedPlaced(before: seq<Byte>, after: seq<Byte>, bits: seq<BitValue>, data: seq<Byte>, p: Part)
    requires Agrees(before, bits) && |bits| % 8 == 0 && p.bitOffset == 0 && p.bitSize % 8 == 0
    requires |bits| + p.bitSize <= 8 * |before| && p.bitSize <= 8 * |data| && |after| == |before|
    requires forall i :: 0 <= i < |after| ==> after[i] == if |bits| / 8 <= i < |bits| / 8 + |data| then data[i - |bits| / 8] else before[i]
    ensures Agrees(after, bits + PartBits(data, p))
  {
    var all, start := bits + PartBits(data, p), |bits| / 8;
    forall j | 0 <= j < |all|
      ensures BitAt(after, j) == all[j]
    {
      if j >= |bits| {
        assert (j - 8 * start) / 8 == j / 8 - start && (j - 8 * start) % 8 == j % 8;
        assert all[j] == BitAt(data, j - 8 * start);
      } else {
        assert BitAt(before, j) == bits[j];
      }
    }
  }

  lemma BitsPlaced(before: seq<Byte>, after: seq<Byte>, bits: seq<BitValue>, data: seq<Byte>, p: Part)
    requires Agrees(before, bits) && |bits| + p.bitSize <= 8 * |before|
    requires CopiedBits(after, before, |bits|, data, p.bitOffset, p.bitSize)
    ensures Agrees(after, bits + PartBits(data, p))
  {
    var all := bits + PartBits(data, p);
    forall j | 0 <= j < |all|
      ensures BitAt(after, j) == all[j]
    {
      if j < |bits| {
        assert BitAt(before, j) == bits[j];
      } else {
        assert all[j] == BitAt(data, Wrap64(p.bitOffset + (j - |bits|)));
      }
    }
  }

  /** One piece of the loop, whichever path it takes. */
  method PlacePart(dest: array<Byte>, bitOffset: nat, data: seq<Byte>, p: Part, ghost bits: seq<BitValue>)
    requires |bits| == bitOffset && bitOffset + p.bitSize <= 8 * dest.Length && Agrees(dest[..], bits)
    requires p.bitOffset == 0 && p.bitSize % 8 == 0 ==> p.bitSize <= 8 * |data|
    modifies dest
    ensures Agrees(dest[..], bits + PartBits(data, p))
  {
    ghost var before := dest[..];
    if bitOffset % 8 == 0 && p.bitOffset == 0 && p.bitSize % 8 == 0 {
      CopyBytes(dest, bitOffset / 8, data);
      AlignedPlaced(before, dest[..], bits, data, p);
    } else {
      MemcpyBits(dest, bitOffset, data, p.bitOffset, p.bitSize);
      BitsPlaced(before, dest[..], bits, data, p);
    }
  }

  /**
   ReadLocationData for a composite location. It fails exactly when a piece cannot
   be read, and otherwise the low bits of the result are the concatenation of the
   pieces: all bits, when the pieces tile the value.
   */
  method ReadPieces(src: Sources, parts: seq<Part>, size: nat) returns (r: Option<seq<Byte>>)
    requires Total(parts) <= 8 * size && forall p <- parts :: Supplied(src, p)
    ensures r.Some? <==> Assembled(src, parts).Some?
    ensures r.Some? ==> |r.value| == size && Agrees(r.value, Assembled(src, parts).value)
  {
    var data := new Byte[size](_ => 0);
    var bitOffset, k := 0, 0;
    assert parts[..0] == [];
    while k < |parts|
      invariant 0 <= k <= |parts| && bitOffset == Total(parts[..k])
      invariant Assembled(src, parts[..k]).Some? && Agrees(data[..], Assembled(src, parts[..k]).value)
    {
      OneMore(src, parts, k);
      TotalPrefix(parts, k + 1);
      var piece := PartData(src, parts[k]);
      if piece.None? {
        if Assembled(src, parts).Some? {
          AssembledPrefix(src, parts, k + 1);
        }
        return None;
      }
      assert Supplied(src, parts[k]);
      PlacePart(data, bitOffset, piece.value, parts[k], Assembled(src, parts[..k]).value);
      bitOffset := bitOffset + parts[k].bitSize;
      k := k + 1;
    }
    assert parts[..k] == parts;
    r := Some(data[..]);
  }

  /** Two results that agree with pieces tiling the whole value are equal: the pieces determine it. */
  lemma TilingDetermines(a: seq<Byte>, b: seq<Byte>, bits: seq<BitValue>)
    requires |a| == |b| && |bits| == 8 * |a| && Agrees(a, bits) && Agrees(b, bits)
    ensures a == b
  {
    forall k | 0 <= k < |a|
      ensures a[k] == b[k]
    {
      forall i | 0 <= i < 8
        ensures Bit(a[k], i) == Bit(b[k], i)
      {
        assert (8 * k + i) / 8 == k && (8 * k + i) % 8 == i;
        assert BitAt(a, 8 * k + i) == bits[8 * k + i] == BitAt(b, 8 * k + i);
      }
      Pow2Values();
      BitsDetermine(a[k], b[k], 8);
    }
  }

  // ---------------------------------------------------------------- bit pieces at an offset

  /** The bytes that ReadLocationData reads for a piece in memory: as many as its own size needs. */
  function PieceBytes(memory: seq<Byte>, p: Part): seq<Byte>
    requires p.bitOffset + p.bitSize <= 8 * |memory|
  {
    memory[..(p.bitSize + 7) / 8]
  }

  /** The piece yields the bits that memory holds at its offset. */
  ghost predicate YieldsMemory(memory: seq<Byte>, p: Part)
    requires p.bitOffset + p.bitSize <= 8 * |memory|
  {
    forall i :: 0 <= i < p.bitSize ==> PartBits(PieceBytes(memory, p), p)[i] == BitAt(memory, p.bitOffset + i)
  }

  /** Whatever memory holds, the piece yields it. */
  ghost predicate AlwaysYieldsMemory(p: Part) {
    forall memory: seq<Byte> :: p.bitOffset + p.bitSize <= 8 * |memory| ==> YieldsMemory(memory, p)
  }

  lemma {:induction false} AllOnes(w: nat, i: nat)
    requires i < w
    ensures Bit(Pow2(w) - 1, i) == 1
    decreases w
  {
    if i > 0 {
      assert (Pow2(w) - 1) / 2 == Pow2(w - 1) - 1;
      AllOnes(w - 1, i - 1);
    }
  }

  /**
   A bit piece at an offset reads only the bytes its own size needs: it yields what memory
   holds, whatever that is, if and only if its last bit lies in those bytes.
   */
  lemma OffsetPiece(p: Part)
    requires p.bitOffset + p.bitSize < TWO63
    ensures AlwaysYieldsMemory(p) <==> p.bitSize == 0 || p.bitOffset + p.bitSize <= 8 * ((p.bitSize + 7) / 8)
  {
    if p.bitSize > 0 && p.bitOffset + p.bitSize > 8 * ((p.bitSize + 7) / 8) {
      PieceFallsShort(p);
    } else {
      forall memory: seq<Byte> | p.bitOffset + p.bitSize <= 8 * |memory|
        ensures YieldsMemory(memory, p)
      {
        PieceReaches(memory, p);
      }
    }
  }

  lemma LastBitSet(memory: seq<Byte>, i: nat)
    requires i / 8 < |memory| && memory[i / 8] == 255
    ensures BitAt(memory, i) == 1
  {
    assert Pow2(8) == 256 by { Pow2Values(); }
    AllOnes(8, i % 8);
  }

  /** Memory full of ones shows the last bit missing. */
  lemma PieceFallsShort(p: Part)
    requires 0 < p.bitSize && 8 * ((p.bitSize + 7) / 8) < p.bitOffset + p.bitSize < TWO63
    ensures !AlwaysYieldsMemory(p)
  {
    var last := p.bitOffset + p.bitSize - 1;
    var memory: seq<Byte> := seq(last / 8 + 1, _ => 255);
    LastBitSet(memory, last);
    var got := PieceBytes(memory, p);
    assert BitAt(got, last) == 0;
    assert PartBits(got, p)[p.bitSize - 1] == BitAt(got, Wrap64(p.bitOffset + (p.bitSize - 1)));
    assert !YieldsMemory(memory, p);
  }

  lemma PieceReaches(memory: seq<Byte>, p: Part)
    requires p.bitOffset + p.bitSize < TWO63 && p.bitOffset + p.bitSize <= 8 * |memory|
    requires p.bitSize == 0 || p.bitOffset + p.bitSize <= 8 * ((p.bitSize + 7) / 8)
    ensures YieldsMemory(memory, p)
  {
    forall i | 0 <= i < p.bitSize
      ensures PartBits(PieceBytes(memory, p), p)[i] == BitAt(memory, p.bitOffset + i)
    {
      assert Wrap64(p.bitOffset + i) == p.bitOffset + i;
    }
  }

  /** The same of ReadLocationData: what a single piece in memory contributes. */
  lemma OffsetPieceAssembled(src: Sources, addr: U64, memory: seq<Byte>, p: Part)
    requires p.location == Address(addr) && p.bitOffset + p.bitSize <= 8 * |memory|
    requires src.memory(addr, (p.bitSize + 7) / 8) == Some(PieceBytes(memory, p))
    ensures Assembled(src, [p]) == Some(PartBits(PieceBytes(memory, p), p))
  {
    assert [p][..0] == [];
    assert Assembled(src, [p][..0]) == Some([]);
    assert [] + PartBits(PieceBytes(memory, p), p) == PartBits(PieceBytes(memory, p), p);
  }
}
