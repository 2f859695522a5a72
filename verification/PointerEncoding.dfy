/**
 The pointer encodings of .eh_frame (section 10.5 of LSB Core), and the proof that
 reading a pointer inverts storing it.
 */
module PointerEncoding {
  import opened Bytes
  import opened Tracee
  import opened Leb128
  import opened CfiReading

  /** The encodings readAddress understands, apart from the omitted pointer. */
  predicate KnownEncoding(enc: Byte) {
    && enc != PTR_OMIT
    && (EncodedPtrSize(enc) != 0 || enc % 16 == 0x01 || enc % 16 == 0x09)
    && enc / 16 % 8 in {0, 1, 3}
  }

  /** The formats whose stored number is signed. */
  predicate SignedFormat(enc: Byte) {
    enc % 16 == 0x09 || enc % 16 == 0x0a || enc % 16 == 0x0b
  }

  /** The stored number fits its format. */
  predicate RawFits(enc: Byte, raw: int) {
    if enc % 16 == 0x09 then -TWO63 <= raw < TWO63
    else if enc % 16 == 0x0a then -0x8000 <= raw < 0x8000
    else if enc % 16 == 0x0b then -0x8000_0000 <= raw < 0x8000_0000
    else if enc % 16 == 0x02 then 0 <= raw < 0x1_0000
    else if enc % 16 == 0x03 then 0 <= raw < 0x1_0000_0000
    else 0 <= raw < TWO64
  }

  /** The bytes of a stored number. */
  function RawBytes(enc: Byte, raw: int): seq<Byte>
    requires RawFits(enc, raw)
  {
    if enc % 16 == 0x01 then EncodeUleb(raw)
    else if enc % 16 == 0x09 then EncodeSleb(raw)
    else if enc % 16 == 0x0a then ToLE(raw % 0x1_0000, 2)
    else if enc % 16 == 0x0b then ToLE(raw % 0x1_0000_0000, 4)
    else ToLE(raw, EncodedPtrSize(enc))
  }

  /** What a pointer at pos is relative to. */
  function RelativeTo(enc: Byte, base: U64, pos: nat): int {
    if enc / 16 % 8 == 1 then base + pos else if enc / 16 % 8 == 3 then base else 0
  }

  /** The number to store for an address. */
  function RawFor(enc: Byte, base: U64, pos: nat, addr: U64): int {
    var d := Minus64(addr, Wrap64(RelativeTo(enc, base, pos)));
    if SignedFormat(enc) then Signed64(d) else d
  }

  lemma OneUleb(prefix: seq<Byte>, v: U64, rest: seq<Byte>, data: seq<Byte>)
    requires data == prefix + EncodeUleb(v) + rest
    ensures UlebAt(data, |prefix|) == Got(v, |prefix| + |EncodeUleb(v)|)
  {
    UlebRoundTrip(prefix, v, rest);
  }

  lemma OneFixed(prefix: seq<Byte>, v: nat, n: nat, rest: seq<Byte>, data: seq<Byte>)
    requires v < Pow2(8 * n) && data == prefix + ToLE(v, n) + rest
    ensures FixedAt(data, |prefix|, n) == Got(v, |prefix| + n)
  {
    FromLEToLE(v, n);
    assert data[|prefix|..|prefix| + n] == ToLE(v, n);
  }

  lemma FieldReads(prefix: seq<Byte>, v: nat, n: nat, rest: seq<Byte>, body: seq<Byte>)
    requires n == 1 || n == 2 || n == 4 || n == 8
    requires v < if n == 1 then 0x100 else if n == 2 then 0x1_0000 else if n == 4 then 0x1_0000_0000 else TWO64
    requires body == prefix + ToLE(v, n) + rest
    ensures FixedAt(body, |prefix|, n) == Got(v, |prefix + ToLE(v, n)|)
  {
    FieldFits(v, n);
    OneFixed(prefix, v, n, rest, body);
  }

  lemma UlebRaw(body: seq<Byte>, pos: nat, enc: Byte, v: U64, next: nat)
    requires pos <= |body| && enc % 16 == 0x01 && UlebAt(body, pos) == Got(v, next)
    ensures RawPointerAt(body, pos, enc) == Got(v, next)
  {
  }

  lemma SlebRaw(body: seq<Byte>, pos: nat, enc: Byte, v: I64, next: nat)
    requires pos <= |body| && enc % 16 == 0x09 && SlebAt(body, pos) == Got(v, next)
    ensures RawPointerAt(body, pos, enc) == Got(v, next)
  {
  }

  lemma FixedRaw(body: seq<Byte>, pos: nat, enc: Byte, v: nat, next: nat)
    requires pos <= |body| && EncodedPtrSize(enc) != 0 && FixedAt(body, pos, EncodedPtrSize(enc)) == Got(v, next)
    ensures RawPointerAt(body, pos, enc) ==
            Got(if enc % 16 == 0x0a then SignExtend(v, 16) else if enc % 16 == 0x0b then SignExtend(v, 32) else v, next)
  {
  }

  /** A stored number reads back, in every format. */
  lemma RawRoundTrip(prefix: seq<Byte>, enc: Byte, raw: int, rest: seq<Byte>, body: seq<Byte>)
    requires KnownEncoding(enc) && RawFits(enc, raw) && body == prefix + RawBytes(enc, raw) + rest
    ensures RawPointerAt(body, |prefix|, enc) == Got(raw, |prefix + RawBytes(enc, raw)|)
  {
    var pos, next, n := |prefix|, |prefix + RawBytes(enc, raw)|, EncodedPtrSize(enc);
    if enc % 16 == 0x01 {
      OneUleb(prefix, raw, rest, body);
      UlebRaw(body, pos, enc, raw, next);
    } else if enc % 16 == 0x09 {
      SlebRoundTrip(prefix, raw, rest);
      SlebRaw(body, pos, enc, raw, next);
    } else if enc % 16 == 0x0a {
      FieldReads(prefix, raw % 0x1_0000, 2, rest, body);
      FixedRaw(body, pos, enc, raw % 0x1_0000, next);
      SignExtend16(raw);
    } else if enc % 16 == 0x0b {
      FieldReads(prefix, raw % 0x1_0000_0000, 4, rest, body);
      FixedRaw(body, pos, enc, raw % 0x1_0000_0000, next);
      SignExtend32(raw);
    } else {
      FieldReads(prefix, raw, n, rest, body);
      FixedRaw(body, pos, enc, raw, next);
    }
  }

  lemma AddressFromRaw(body: seq<Byte>, base: U64, pos: nat, enc: Byte, raw: int, next: nat)
    requires pos <= |body| && KnownEncoding(enc) && RawPointerAt(body, pos, enc) == Got(raw, next)
    ensures AddressAt(body, base, pos, enc) == Got(Wrap64(raw + RelativeTo(enc, base, pos)), next)
  {
  }

  /** Adding back what was subtracted, in either representation. */
  lemma RelativeBack(addr: U64, rel: int, raw: int)
    requires raw == Minus64(addr, Wrap64(rel)) || raw == Signed64(Minus64(addr, Wrap64(rel)))
    ensures Wrap64(raw + rel) == addr
  {
    var r := Wrap64(rel);
    assert rel == r + rel / TWO64 * TWO64;
    var k := if raw == addr - r then 0 else if raw == addr - r + TWO64 then 1 else -1;
    assert raw == addr - r + k * TWO64;
    assert raw + rel == addr + (k + rel / TWO64) * TWO64;
    WrapBack(addr, k + rel / TWO64);
  }

  lemma WrapBack(addr: U64, k: int)
    ensures Wrap64(addr + k * TWO64) == addr
  {
  }

  /** Reading inverts storing an address, in every known format and application. */
  lemma AddressRoundTrip(prefix: seq<Byte>, enc: Byte, base: U64, addr: U64, raw: int, rest: seq<Byte>, body: seq<Byte>)
    requires KnownEncoding(enc) && raw == RawFor(enc, base, |prefix|, addr) && RawFits(enc, raw)
    requires body == prefix + RawBytes(enc, raw) + rest
    ensures AddressAt(body, base, |prefix|, enc) == Got(addr, |prefix + RawBytes(enc, raw)|)
  {
    RawRoundTrip(prefix, enc, raw, rest, body);
    AddressFromRaw(body, base, |prefix|, enc, raw, |prefix + RawBytes(enc, raw)|);
    RelativeBack(addr, RelativeTo(enc, base, |prefix|), raw);
  }
}
