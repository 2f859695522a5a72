/**
 The operations of DWARF expressions (section 2.5 of DWARF 4): decoding as the
 evaluator does it, and an encoding that the decoder inverts.
 */
module DwarfOps {
  import opened Bytes
  import opened Tracee
  import opened Leb128
  import opened CfiReading
  import opened CallFrame
  import opened PointerEncoding
  import opened CallFrameEncoding

  datatype Arith = And | Div | Minus | Mod | Mul | Or | Plus | Shl | Shr | Shra | Xor

  datatype Unary = Abs | Neg | Not

  datatype Relation = Eq | Ge | Gt | Le | Lt | Ne

  /** The operations; dup and over are picks, and deref is a sized one. */
  datatype Op =
    | Const(value: U64)
    | Addr(fileAddr: U64)
    | RegPlus(reg: U64, offset: I64)
    | InReg(reg: U64)
    | FrameBase(offset: I64)
    | CallFrameCfa
    | Pick(index: Byte)
    | Drop
    | Swap
    | Rot
    | Deref(size: Byte)
    | Calc(arith: Arith)
    | Apply1(unary: Unary)
    | PlusConst(value: U64)
    | Compare(relation: Relation)
    | Skip(delta: int)
    | Bra(delta: int)
    | Implicit(bytes: seq<Byte>)
    | StackValue
    | NoOp
    | Piece(bitSize: U64, bitOffset: U64)

  /** What follows an opcode byte. */
  function ExprShape(b: Byte): Shape {
    if 0x30 <= b <= 0x6f then NoOperand
    else if 0x70 <= b <= 0x8f then S
    else if b == 0x03 || b == 0x0e || b == 0x0f then Fixed(8)
    else if b == 0x08 || b == 0x09 || b == 0x15 || b == 0x94 then Fixed(1)
    else if b == 0x0a || b == 0x0b || b == 0x28 || b == 0x2f then Fixed(2)
    else if b == 0x0c || b == 0x0d then Fixed(4)
    else if b == 0x10 || b == 0x23 || b == 0x90 || b == 0x93 then U
    else if b == 0x11 || b == 0x91 then S
    else if b == 0x92 then US
    else if b == 0x9d then UU
    else if b == 0x9e then B
    else if b == 0x06 || b == 0x12 || b == 0x13 || b == 0x14 || b == 0x16 || b == 0x17 then NoOperand
    else if 0x19 <= b <= 0x2e || b == 0x96 || b == 0x9c || b == 0x9f then NoOperand
    else Unknown
  }

  /** A fixed-size number as the constant or index it stands for. */
  function FromFixed(b: Byte, n: nat): Op {
    if b == 0x03 then Addr(Wrap64(n))
    else if b == 0x15 then Pick(n % 256)
    else if b == 0x94 then Deref(n % 256)
    else if b == 0x28 then Bra(SignExtend(n, 16))
    else if b == 0x2f then Skip(SignExtend(n, 16))
    else if b == 0x09 then Const(Wrap64(SignExtend(n, 8)))
    else if b == 0x0b then Const(Wrap64(SignExtend(n, 16)))
    else if b == 0x0d then Const(Wrap64(SignExtend(n, 32)))
    else Const(Wrap64(n))
  }

  function FromPlain(b: Byte): Op {
    if 0x30 <= b <= 0x4f then Const(b - 0x30)
    else if 0x50 <= b <= 0x6f then InReg(b - 0x50)
    else if b == 0x06 then Deref(8)
    else if b == 0x12 then Pick(0)
    else if b == 0x13 then Drop
    else if b == 0x14 then Pick(1)
    else if b == 0x16 then Swap
    else if b == 0x17 then Rot
    else if b == 0x96 then NoOp
    else if b == 0x9c then CallFrameCfa
    else if b == 0x9f then StackValue
    else FromArith(b)
  }

  function FromArith(b: Byte): Op {
    if b == 0x19 then Apply1(Abs)
    else if b == 0x1a then Calc(And)
    else if b == 0x1b then Calc(Div)
    else if b == 0x1c then Calc(Minus)
    else if b == 0x1d then Calc(Mod)
    else if b == 0x1e then Calc(Mul)
    else if b == 0x1f then Apply1(Neg)
    else if b == 0x20 then Apply1(Not)
    else if b == 0x21 then Calc(Or)
    else if b == 0x22 then Calc(Plus)
    else if b == 0x24 then Calc(Shl)
    else if b == 0x25 then Calc(Shr)
    else if b == 0x26 then Calc(Shra)
    else if b == 0x27 then Calc(Xor)
    else if b == 0x29 then Compare(Eq)
    else if b == 0x2a then Compare(Ge)
    else if b == 0x2b then Compare(Gt)
    else if b == 0x2c then Compare(Le)
    else if b == 0x2d then Compare(Lt)
    else Compare(Ne)
  }

  /** The operation of an opcode byte and its operands. */
  function BuildOp(b: Byte, o: Operands): Op
    requires Fits(o, ExprShape(b))
  {
    match o
    case Num(n) => FromFixed(b, n)
    case None0 => FromPlain(b)
    case One(u) =>
      if b == 0x10 then Const(u) else if b == 0x23 then PlusConst(u) else if b == 0x90 then InReg(u) else Piece(Wrap64(8 * u), 0)
    case OneSigned(s) =>
      if b == 0x11 then Const(Wrap64(s)) else if b == 0x91 then FrameBase(s) else RegPlus(b - 0x70, s)
    case Mixed(u, s) => RegPlus(u, s)
    case Two(u, v) => Piece(u, v)
    case Block(bytes) => Implicit(bytes)
  }

  /** The operation at pos. */
  function OpAt(data: seq<Byte>, pos: nat): (r: Read<Op>)
    requires pos <= |data|
    ensures r.Got? ==> pos < r.next <= |data|
  {
    if pos == |data| then Bad
    else
      match OperandsAt(ExprShape(data[pos]), data, pos + 1, 0)
      case Bad => Bad
      case Got(o, next) =>
        OperandsFit(ExprShape(data[pos]), data, pos + 1, 0);
        Got(BuildOp(data[pos], o), next)
  }

  // ---------------------------------------------------------------- encoding

  function ArithByte(a: Arith): Byte {
    match a
    case And => 0x1a case Div => 0x1b case Minus => 0x1c case Mod => 0x1d case Mul => 0x1e case Or => 0x21
    case Plus => 0x22 case Shl => 0x24 case Shr => 0x25 case Shra => 0x26 case Xor => 0x27
  }

  function UnaryByte(u: Unary): Byte {
    match u case Abs => 0x19 case Neg => 0x1f case Not => 0x20
  }

  function RelationByte(r: Relation): Byte {
    match r case Eq => 0x29 case Ge => 0x2a case Gt => 0x2b case Le => 0x2c case Lt => 0x2d case Ne => 0x2e
  }

  function ByteOf(op: Op): Byte {
    match op
    case Const(v) => if v < 32 then 0x30 + v else 0x10
    case Addr(_) => 0x03
    case RegPlus(reg, _) => if reg < 32 then 0x70 + reg else 0x92
    case InReg(reg) => if reg < 32 then 0x50 + reg else 0x90
    case FrameBase(_) => 0x91
    case CallFrameCfa => 0x9c
    case Pick(i) => if i == 0 then 0x12 else if i == 1 then 0x14 else 0x15
    case Drop => 0x13
    case Swap => 0x16
    case Rot => 0x17
    case Deref(n) => if n == 8 then 0x06 else 0x94
    case Calc(a) => ArithByte(a)
    case Apply1(u) => UnaryByte(u)
    case PlusConst(_) => 0x23
    case Compare(r) => RelationByte(r)
    case Skip(_) => 0x2f
    case Bra(_) => 0x28
    case Implicit(_) => 0x9e
    case StackValue => 0x9f
    case NoOp => 0x96
    case Piece(_, _) => 0x9d
  }

  function OpOperands(op: Op): Operands {
    match op
    case Const(v) => if v < 32 then None0 else One(v)
    case Addr(a) => Num(a)
    case RegPlus(reg, off) => if reg < 32 then OneSigned(off) else Mixed(reg, off)
    case InReg(reg) => if reg < 32 then None0 else One(reg)
    case FrameBase(off) => OneSigned(off)
    case Pick(i) => if i < 2 then None0 else Num(i)
    case Deref(n) => if n == 8 then None0 else Num(n)
    case PlusConst(v) => One(v)
    case Skip(d) => Num(d % 0x1_0000)
    case Bra(d) => Num(d % 0x1_0000)
    case Implicit(bytes) => Block(bytes)
    case Piece(n, off) => Two(n, off)
    case _ => None0
  }

  predicate EncodableOp(op: Op) {
    && (op.Skip? || op.Bra? ==> -0x8000 <= op.delta < 0x8000)
    && (op.Implicit? ==> |op.bytes| < TWO64)
  }

  lemma OperandsOfOp(op: Op)
    ensures Fits(OpOperands(op), ExprShape(ByteOf(op)))
  {
  }

  lemma BuildBranch(op: Op)
    requires EncodableOp(op) && (op.Skip? || op.Bra?)
    ensures FromFixed(ByteOf(op), op.delta % 0x1_0000) == op
  {
    SignExtend16(op.delta);
  }

  /** Opcode byte and operands determine the operation. */
  lemma BuildByte(op: Op)
    requires EncodableOp(op)
    ensures Fits(OpOperands(op), ExprShape(ByteOf(op))) && BuildOp(ByteOf(op), OpOperands(op)) == op
  {
    OperandsOfOp(op);
    if op.Skip? || op.Bra? {
      BuildBranch(op);
    }
  }

  /** Operands of fixed size fit their field. */
  lemma OpInRange(op: Op)
    requires EncodableOp(op)
    ensures InRange(ExprShape(ByteOf(op)), OpOperands(op), 0, 0)
  {
    NeverPointer(ByteOf(op));
    var shape, o := ExprShape(ByteOf(op)), OpOperands(op);
    if o.Num? {
      assert o.n < if shape.n == 1 then 0x100 else if shape.n == 2 then 0x1_0000 else TWO64;
      assert shape.n == 1 || shape.n == 2 || shape.n == 8;
      FieldFits(o.n, shape.n);
    }
  }

  function EncodeOp(op: Op): seq<Byte> {
    OperandsOfOp(op);
    NeverPointer(ByteOf(op));
    [ByteOf(op)] + EncodeOperands(ExprShape(ByteOf(op)), OpOperands(op), 0, 0)
  }

  lemma NeverPointer(b: Byte)
    ensures !ExprShape(b).Pointer?
  {
  }

  /** Decoding inverts encoding, for every operation at any position. */
  lemma OpRoundTrip(prefix: seq<Byte>, op: Op, rest: seq<Byte>)
    requires EncodableOp(op)
    ensures OpAt(prefix + EncodeOp(op) + rest, |prefix|) == Got(op, |prefix| + |EncodeOp(op)|)
  {
    var b, shape, o := ByteOf(op), ExprShape(ByteOf(op)), OpOperands(op);
    BuildByte(op);
    OpInRange(op);
    NeverPointer(b);
    var data := prefix + EncodeOp(op) + rest;
    assert data == (prefix + [b]) + EncodeOperands(shape, o, 0, 0) + rest;
    assert data[|prefix|] == b;
    OperandsRoundTrip(prefix + [b], shape, o, rest, data, 0);
  }

  // ---------------------------------------------------------------- other encodings of the same operations

  /** const1u to const8s: the opcode of a constant of n bytes. */
  function ConstByte(n: nat, signed: bool): Byte
    requires n == 1 || n == 2 || n == 4 || n == 8
  {
    (if n == 1 then 0x08 else if n == 2 then 0x0a else if n == 4 then 0x0c else 0x0e) + if signed then 1 else 0
  }

  /** 256 to the power of n. */
  function Span(n: nat): nat
    requires n == 1 || n == 2 || n == 4 || n == 8
  {
    if n == 1 then 0x100 else if n == 2 then 0x1_0000 else if n == 4 then 0x1_0000_0000 else TWO64
  }

  /** An opcode byte whose operands are known. */
  lemma OpWith(prefix: seq<Byte>, b: Byte, o: Operands, next: nat, data: seq<Byte>)
    requires |prefix| < |data| && data[|prefix|] == b && OperandsAt(ExprShape(b), data, |prefix| + 1, 0) == Got(o, next) && Fits(o, ExprShape(b))
    ensures OpAt(data, |prefix|) == Got(BuildOp(b, o), next)
  {
    hide OperandsAt, BuildOp, ExprShape, Fits;
  }

  lemma SignedConst(n: nat, v: int)
    requires n == 1 || n == 2 || n == 4 || n == 8
    requires 0 <= Span(n) + 2 * v && 2 * v < Span(n)
    ensures FromFixed(ConstByte(n, true), v % Span(n)) == Const(Wrap64(v))
  {
    hide SignExtend, Pow2;
    if n == 1 {
      SignExtend8(v);
    } else if n == 2 {
      SignExtend16(v);
    } else if n == 4 {
      SignExtend32(v);
    }
  }

  lemma ConstFrom(n: nat, signed: bool, v: int)
    requires n == 1 || n == 2 || n == 4 || n == 8
    requires if signed then 0 <= Span(n) + 2 * v && 2 * v < Span(n) else 0 <= v < Span(n)
    ensures ExprShape(ConstByte(n, signed)) == Fixed(n) && FromFixed(ConstByte(n, signed), v % Span(n)) == Const(Wrap64(v))
  {
    hide SignExtend, Pow2;
    if signed {
      hide FromFixed;
      SignedConst(n, v);
    }
  }

  /** A constant of fixed size pushes its value, signed or unsigned as its opcode says. */
  lemma FixedConst(prefix: seq<Byte>, n: nat, signed: bool, v: int, rest: seq<Byte>, data: seq<Byte>)
    requires n == 1 || n == 2 || n == 4 || n == 8
    requires if signed then 0 <= Span(n) + 2 * v && 2 * v < Span(n) else 0 <= v < Span(n)
    requires data == prefix + [ConstByte(n, signed)] + ToLE(v % Span(n), n) + rest
    ensures OpAt(data, |prefix|) == Got(Const(Wrap64(v)), |prefix| + 1 + n)
  {
    var b := ConstByte(n, signed);
    assert data[|prefix|] == b && |prefix + [b]| == |prefix| + 1;
    FieldFits(v % Span(n), n);
    OneFixed(prefix + [b], v % Span(n), n, rest, data);
    ConstFrom(n, signed, v);
    hide FromFixed, ExprShape, FixedAt, ToLE, ConstByte;
    OpWith(prefix, b, Operands.Num(v % Span(n)), |prefix| + 1 + n, data);
  }

  lemma SignExtend8(v: int)
    requires -0x80 <= v < 0x80
    ensures SignExtend(v % 0x100, 8) == v
  {
    Pow2Values();
  }

  /** constu, and the piece of whole bytes. */
  lemma UlebOps(prefix: seq<Byte>, b: Byte, u: U64, rest: seq<Byte>, data: seq<Byte>)
    requires (b == 0x10 || (b == 0x93 && 8 * u < TWO64)) && data == prefix + [b] + EncodeUleb(u) + rest
    ensures OpAt(data, |prefix|) == Got(if b == 0x10 then Const(u) else Piece(8 * u, 0), |prefix| + 1 + |EncodeUleb(u)|)
  {
    assert |prefix + [b]| == |prefix| + 1 && data[|prefix|] == b && ExprShape(b) == U;
    OneUleb(prefix + [b], u, rest, data);
    hide UlebAt, EncodeUleb, ExprShape;
    OpWith(prefix, b, One(u), |prefix| + 1 + |EncodeUleb(u)|, data);
  }

  /** consts. */
  lemma SlebConst(prefix: seq<Byte>, s: I64, rest: seq<Byte>, data: seq<Byte>)
    requires data == prefix + [0x11] + EncodeSleb(s) + rest
    ensures OpAt(data, |prefix|) == Got(Const(Wrap64(s)), |prefix| + 1 + |EncodeSleb(s)|)
  {
    var b: Byte := 0x11;
    assert |prefix + [b]| == |prefix| + 1 && data[|prefix|] == b && ExprShape(b) == S;
    SlebRoundTrip(prefix + [b], s, rest);
    hide SlebAt, EncodeSleb, ExprShape;
    OpWith(prefix, b, OneSigned(s), |prefix| + 1 + |EncodeSleb(s)|, data);
  }
}
