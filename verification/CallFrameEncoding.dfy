/**
 The encoding of call frame instructions of section 7.23 of DWARF 4, and the
 proof that the decoder inverts it wherever the instruction stands.
 */
module CallFrameEncoding {
  import opened Bytes
  import opened Tracee
  import opened Leb128
  import opened CfiReading
  import opened PointerEncoding
  import opened CallFrame

  function EncodeBlock(b: seq<Byte>): seq<Byte> {
    EncodeUleb(|b|) + b
  }

  /** The bytes of the operands at pos; only a pointer depends on where it stands. */
  function EncodeOperands(shape: Shape, o: Operands, enc: Byte, pos: nat): seq<Byte>
    requires Fits(o, shape) && (shape.Pointer? ==> RawFits(enc, RawFor(enc, 0, pos, o.u)))
  {
    match o
    case None0 => []
    case Num(n) => if shape.Fixed? then ToLE(n, shape.n) else []
    case One(u) => if shape.Pointer? then RawBytes(enc, RawFor(enc, 0, pos, u)) else EncodeUleb(u)
    case OneSigned(s) => EncodeSleb(s)
    case Block(b) => EncodeBlock(b)
    case Two(u, v) => EncodeUleb(u) + EncodeUleb(v)
    case Mixed(u, s) => EncodeUleb(u) + EncodeSleb(s)
    case WithBlock(u, b) => EncodeUleb(u) + EncodeBlock(b)
  }

  /** The opcode byte of the shortest encoding. */
  function OpcodeOf(i: Instr): Byte {
    match i
    case Nop => 0x00
    case SetLoc(_) => 0x01
    case AdvanceLoc(delta) =>
      if delta < 0x40 then 0x40 + delta else if delta < 0x100 then 0x02 else if delta < 0x1_0000 then 0x03 else 0x04
    case SetOffset(reg, _) => if reg < 0x40 then 0x80 + reg else 0x05
    case Restore(reg) => if reg < 0x40 then 0xC0 + reg else 0x06
    case SetUndefined(_) => 0x07
    case SetSameValue(_) => 0x08
    case SetRegister(_, _) => 0x09
    case RememberState => 0x0A
    case RestoreState => 0x0B
    case DefCfa(_, _) => 0x0C
    case DefCfaRegister(_) => 0x0D
    case DefCfaOffset(_) => 0x0E
    case DefCfaExpression(_) => 0x0F
    case SetExpression(_, _) => 0x10
    case SetOffsetSf(_, _) => 0x11
    case DefCfaSf(_, _) => 0x12
    case DefCfaOffsetSf(_) => 0x13
    case SetValOffset(_, _) => 0x14
    case SetValOffsetSf(_, _) => 0x15
    case SetValExpression(_, _) => 0x16
  }

  function OperandsOf(i: Instr): Operands {
    match i
    case Nop => None0
    case SetLoc(addr) => One(addr)
    case AdvanceLoc(delta) => if delta < 0x40 then None0 else Num(delta)
    case SetOffset(reg, off) => if reg < 0x40 then One(off) else Two(reg, off)
    case Restore(reg) => if reg < 0x40 then None0 else One(reg)
    case SetUndefined(reg) => One(reg)
    case SetSameValue(reg) => One(reg)
    case SetRegister(reg, other) => Two(reg, other)
    case RememberState => None0
    case RestoreState => None0
    case DefCfa(reg, off) => Two(reg, off)
    case DefCfaRegister(reg) => One(reg)
    case DefCfaOffset(off) => One(off)
    case DefCfaExpression(expr) => Block(expr)
    case SetExpression(reg, expr) => WithBlock(reg, expr)
    case SetOffsetSf(reg, soff) => Mixed(reg, soff)
    case DefCfaSf(reg, soff) => Mixed(reg, soff)
    case DefCfaOffsetSf(soff) => OneSigned(soff)
    case SetValOffset(reg, off) => Two(reg, off)
    case SetValOffsetSf(reg, soff) => Mixed(reg, soff)
    case SetValExpression(reg, expr) => WithBlock(reg, expr)
  }

  /** Opcode and operands determine the instruction. */
  lemma BuildOpcode(i: Instr)
    ensures Fits(OperandsOf(i), ShapeOf(OpcodeOf(i))) && Build(OpcodeOf(i), OperandsOf(i)) == i
  {
  }

  /** The operands fit their fields, when the instruction stands at pos and pointers are encoded as `enc` says. */
  predicate Encodable(i: Instr, enc: Byte, pos: nat) {
    && (i.SetLoc? ==> KnownEncoding(enc) && RawFits(enc, RawFor(enc, 0, pos + 1, i.addr)))
    && (i.AdvanceLoc? ==> i.delta < 0x1_0000_0000)
    && (i.DefCfaExpression? || i.SetExpression? || i.SetValExpression? ==> |i.expr| < TWO64)
  }

  /** The shortest encoding of an instruction at pos. */
  function Encode(i: Instr, enc: Byte, pos: nat): seq<Byte>
    requires Encodable(i, enc, pos)
  {
    BuildOpcode(i);
    PointerOnly(i);
    [OpcodeOf(i)] + EncodeOperands(ShapeOf(OpcodeOf(i)), OperandsOf(i), enc, pos + 1)
  }

  // ---------------------------------------------------------------- operand shapes

  /** A ULEB128 number in front of y; y then stands behind a longer prefix. */
  lemma FirstUleb(prefix: seq<Byte>, u: U64, y: seq<Byte>, rest: seq<Byte>, data: seq<Byte>)
    requires data == prefix + (EncodeUleb(u) + y) + rest
    ensures UlebAt(data, |prefix|) == Got(u, |prefix + EncodeUleb(u)|)
    ensures data == (prefix + EncodeUleb(u)) + y + rest
    ensures |prefix + EncodeUleb(u)| + |y| == |prefix| + |EncodeUleb(u) + y|
  {
    Recut(prefix, EncodeUleb(u), y, rest);
    OneUleb(prefix, u, y + rest, data);
  }

  lemma Recut(prefix: seq<Byte>, x: seq<Byte>, y: seq<Byte>, rest: seq<Byte>)
    ensures prefix + (x + y) + rest == prefix + x + (y + rest)
    ensures prefix + (x + y) + rest == (prefix + x) + y + rest
  {
  }

  lemma OneBlock(prefix: seq<Byte>, b: seq<Byte>, rest: seq<Byte>, data: seq<Byte>)
    requires |b| < TWO64 && data == prefix + EncodeBlock(b) + rest
    ensures BlockAt(data, |prefix|) == Got(b, |prefix| + |EncodeBlock(b)|)
  {
    assert data == prefix + EncodeUleb(|b|) + (b + rest);
    OneUleb(prefix, |b|, b + rest, data);
    var at := |prefix| + |EncodeUleb(|b|)|;
    assert data == (prefix + EncodeUleb(|b|)) + b + rest;
    assert data[at..at + |b|] == b;
  }

  // ---------------------------------------------------------------- the round trip

  predicate InRange(shape: Shape, o: Operands, enc: Byte, pos: nat) {
    && (shape.Pointer? && o.One? ==> KnownEncoding(enc) && RawFits(enc, RawFor(enc, 0, pos, o.u)))
    && (shape.Fixed? && o.Num? ==> o.n < Pow2(8 * shape.n))
    && (o.Block? || o.WithBlock? ==> |o.b| < TWO64)
  }

  lemma TwoRoundTrip(prefix: seq<Byte>, u: U64, v: U64, rest: seq<Byte>, data: seq<Byte>, enc: Byte)
    requires data == prefix + (EncodeUleb(u) + EncodeUleb(v)) + rest
    ensures OperandsAt(UU, data, |prefix|, enc) == Got(Two(u, v), |prefix| + |EncodeUleb(u) + EncodeUleb(v)|)
  {
    FirstUleb(prefix, u, EncodeUleb(v), rest, data);
    OneUleb(prefix + EncodeUleb(u), v, rest, data);
  }

  lemma MixedRoundTrip(prefix: seq<Byte>, u: U64, s: I64, rest: seq<Byte>, data: seq<Byte>, enc: Byte)
    requires data == prefix + (EncodeUleb(u) + EncodeSleb(s)) + rest
    ensures OperandsAt(US, data, |prefix|, enc) == Got(Mixed(u, s), |prefix| + |EncodeUleb(u) + EncodeSleb(s)|)
  {
    FirstUleb(prefix, u, EncodeSleb(s), rest, data);
    SlebRoundTrip(prefix + EncodeUleb(u), s, rest);
  }

  lemma WithBlockRoundTrip(prefix: seq<Byte>, u: U64, b: seq<Byte>, rest: seq<Byte>, data: seq<Byte>, enc: Byte)
    requires |b| < TWO64 && data == prefix + (EncodeUleb(u) + EncodeBlock(b)) + rest
    ensures OperandsAt(UB, data, |prefix|, enc) == Got(WithBlock(u, b), |prefix| + |EncodeUleb(u) + EncodeBlock(b)|)
  {
    FirstUleb(prefix, u, EncodeBlock(b), rest, data);
    OneBlock(prefix + EncodeUleb(u), b, rest, data);
  }

  lemma NumberRoundTrip(prefix: seq<Byte>, shape: Shape, o: Operands, rest: seq<Byte>, data: seq<Byte>, enc: Byte)
    requires (shape.Fixed? || shape.Pointer?) && Fits(o, shape) && InRange(shape, o, enc, |prefix|)
    requires data == prefix + EncodeOperands(shape, o, enc, |prefix|) + rest
    ensures OperandsAt(shape, data, |prefix|, enc) == Got(o, |prefix| + |EncodeOperands(shape, o, enc, |prefix|)|)
  {
    if shape.Fixed? {
      OneFixed(prefix, o.n, shape.n, rest, data);
    } else {
      AddressRoundTrip(prefix, enc, 0, o.u, RawFor(enc, 0, |prefix|, o.u), rest, data);
    }
  }

  /** Reading operands inverts writing them, for every shape. */
  lemma OperandsRoundTrip(prefix: seq<Byte>, shape: Shape, o: Operands, rest: seq<Byte>, data: seq<Byte>, enc: Byte)
    requires Fits(o, shape) && InRange(shape, o, enc, |prefix|)
    requires data == prefix + EncodeOperands(shape, o, enc, |prefix|) + rest
    ensures OperandsAt(shape, data, |prefix|, enc) == Got(o, |prefix| + |EncodeOperands(shape, o, enc, |prefix|)|)
  {
    if shape.UU? {
      TwoRoundTrip(prefix, o.u, o.v, rest, data, enc);
    } else if shape.US? {
      MixedRoundTrip(prefix, o.u, o.s, rest, data, enc);
    } else if shape.UB? {
      WithBlockRoundTrip(prefix, o.u, o.b, rest, data, enc);
    } else if shape.Fixed? || shape.Pointer? {
      NumberRoundTrip(prefix, shape, o, rest, data, enc);
    } else if shape.U? {
      OneUleb(prefix, o.u, rest, data);
    } else if shape.S? {
      SlebRoundTrip(prefix, o.s, rest);
    } else if shape.B? {
      OneBlock(prefix, o.b, rest, data);
    }
  }

  lemma OperandsInRange(i: Instr, enc: Byte, pos: nat)
    requires Encodable(i, enc, pos)
    ensures InRange(ShapeOf(OpcodeOf(i)), OperandsOf(i), enc, pos + 1)
  {
    var shape, o := ShapeOf(OpcodeOf(i)), OperandsOf(i);
    PointerOnly(i);
    if o.Num? {
      assert o.n < if shape.n == 1 then 0x100 else if shape.n == 2 then 0x1_0000 else 0x1_0000_0000;
      assert shape.n == 1 || shape.n == 2 || shape.n == 4;
      FieldFits(o.n, shape.n);
    }
  }

  /**
   Decoding inverts encoding, at any position of any section, for every instruction
   and every known pointer encoding.
   */
  lemma DecodeEncode(prefix: seq<Byte>, i: Instr, rest: seq<Byte>, enc: Byte)
    requires Encodable(i, enc, |prefix|)
    ensures DecodeAt(prefix + Encode(i, enc, |prefix|) + rest, |prefix|, enc) == Got(i, |prefix| + |Encode(i, enc, |prefix|)|)
  {
    var op, shape, o := OpcodeOf(i), ShapeOf(OpcodeOf(i)), OperandsOf(i);
    BuildOpcode(i);
    OperandsInRange(i, enc, |prefix|);
    PointerOnly(i);
    var data := prefix + Encode(i, enc, |prefix|) + rest;
    assert |prefix + [op]| == |prefix| + 1;
    assert data == (prefix + [op]) + EncodeOperands(shape, o, enc, |prefix| + 1) + rest;
    assert data[|prefix|] == op;
    OperandsRoundTrip(prefix + [op], shape, o, rest, data, enc);
  }

  lemma PointerOnly(i: Instr)
    ensures ShapeOf(OpcodeOf(i)).Pointer? ==> i.SetLoc? && OperandsOf(i) == One(i.addr)
  {
  }
}
